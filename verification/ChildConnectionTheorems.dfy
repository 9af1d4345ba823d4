/**
 What the batched loader promises: it answers a key as if the key had been loaded alone. It does so
 on every database for some batches, on databases that keep system rows apart for more, and on any
 database exactly when the batch costs the key none of its children.
 */
module ChildConnectionTheorems {
  import opened Collections
  import opened ChildRelation
  import opened ConnectionKeys
  import opened ChildConnectionLoader

  // ----- the plain query

  // Every distinct child of the parent, with the system children of a shared query, in order.
  function PlainChildren(rows: seq<Row>, shared: bool, p: ParentId): seq<Entity> {
    Distinct(Visible(rows, p, shared))
  }

  lemma PlainMeaning(rows: seq<Row>, shared: bool, p: ParentId)
    requires WellFormed(rows)
    ensures Ascending(PlainChildren(rows, shared, p))
    ensures forall e :: e in PlainChildren(rows, shared, p)
                        <==> exists r :: r in rows && VisibleTo(r, p, shared) && r.child == e
  {
    VisibleInOrder(rows, p, shared);
    DistinctAscends(Visible(rows, p, shared));
    forall e ensures e in PlainChildren(rows, shared, p)
                     <==> exists r :: r in rows && VisibleTo(r, p, shared) && r.child == e {
      DistinctMembers(Visible(rows, p, shared), e);
      VisibleMembers(rows, p, shared, e);
    }
  }

  // ----- what a request shows one of its parents

  // Parent p in a request for the given parents, which reads up to n children of each group.
  datatype View = View(rows: seq<Row>, parents: seq<ParentId>, shared: bool, cursor: Cursor, n: nat, p: ParentId)
  {
    // The rows a plain query of p would read.
    function Past(): seq<Row> {
      Seek(rows, cursor)
    }

    // The rows the request reads.
    function Fetched(): seq<Row> {
      Seek(Where(rows, parents, shared), cursor)
    }

    function Plain(): seq<Entity> {
      PlainChildren(Past(), shared, p)
    }

    function Children(): seq<Entity> {
      ChildrenFor(Where(rows, parents, shared), cursor, n, shared, p)
    }

    function Alone(): View {
      this.(parents := [p])
    }

    ghost predicate Valid() {
      WellFormed(rows) && p in parents && forall r :: r in rows ==> |r.pivot| == |p|
    }

    // A fetched row that p is shown, unless its group has n children before its own.
    ghost predicate Ranked(r: Row) {
      r in Fetched() && VisibleTo(r, p, shared) && DenseRank(Fetched(), r) <= n
    }

    ghost predicate Shows(e: Entity) {
      exists r :: Ranked(r) && r.child == e
    }

    // The child at position j of the plain query is shown.
    ghost predicate ShowsAt(j: nat) {
      j < |Plain()| && Shows(Plain()[j])
    }

    ghost predicate ShowsFirst(m: nat) {
      forall j: nat :: j < m && j < |Plain()| ==> ShowsAt(j)
    }

    ghost predicate ShowsBeyond(m: nat) {
      exists j: nat :: m <= j && ShowsAt(j)
    }

    ghost predicate ShowsOneBeyond(m: nat) {
      exists j: nat :: m <= j && ShowsAt(j) && forall i: nat :: m <= i && ShowsAt(i) ==> i == j
    }

    // The other rows of the groups p is shown rows of are shown to p as well.
    ghost predicate GroupsVisible() {
      forall r, x :: r in Fetched() && x in Fetched() && r.pivot == x.pivot && VisibleTo(r, p, shared)
                     ==> VisibleTo(x, p, shared)
    }
  }

  lemma FetchedVisible(v: View, r: Row)
    requires v.p in v.parents && VisibleTo(r, v.p, v.shared)
    ensures r in v.Fetched() <==> r in v.Past()
  {
    SeekMembers(Where(v.rows, v.parents, v.shared), v.cursor, r);
    WhereMembers(v.rows, v.parents, v.shared, r);
    SeekMembers(v.rows, v.cursor, r);
    if r.pivot == v.p {
      assert InFilters(v.p, v.parents);
    }
  }

  lemma FetchedIsPast(v: View, r: Row)
    ensures r in v.Fetched() <==> r in v.Past() && (InFilters(r.pivot, v.parents) || (v.shared && r.child.system))
  {
    SeekMembers(Where(v.rows, v.parents, v.shared), v.cursor, r);
    WhereMembers(v.rows, v.parents, v.shared, r);
    SeekMembers(v.rows, v.cursor, r);
  }

  lemma ViewInOrder(v: View)
    requires WellFormed(v.rows)
    ensures WellFormed(v.Fetched()) && WellFormed(v.Past())
    ensures Ascending(v.Children()) && ConsistentChildren(Visible(Window(v.Fetched(), v.n), v.p, v.shared))
  {
    WhereKeepsOrder(v.rows, v.parents, v.shared);
    SeekKeepsOrder(Where(v.rows, v.parents, v.shared), v.cursor);
    SeekKeepsOrder(v.rows, v.cursor);
    WindowKeepsOrder(v.Fetched(), v.n);
    VisibleInOrder(Window(v.Fetched(), v.n), v.p, v.shared);
    DistinctAscends(Visible(Window(v.Fetched(), v.n), v.p, v.shared));
  }

  /** The children collected for a parent are those it is shown: with a visible fetched row of dense
      rank at most n among the fetched rows of its group. */
  lemma ShownChildren(v: View, e: Entity)
    requires WellFormed(v.rows)
    ensures e in v.Children() <==> v.Shows(e)
  {
    var kept := Window(v.Fetched(), v.n);
    ViewInOrder(v);
    DistinctMembers(Visible(kept, v.p, v.shared), e);
    VisibleMembers(kept, v.p, v.shared, e);
    forall r ensures r in kept <==> r in v.Fetched() && DenseRank(v.Fetched(), r) <= v.n {
      WindowMembers(v.Fetched(), v.n, r);
    }
    if v.Shows(e) {
      var r :| v.Ranked(r) && r.child == e;
      assert r in kept;
    }
  }

  lemma ShownWithinPlain(v: View)
    requires v.Valid()
    ensures Within(v.Children(), v.Plain())
    ensures forall j: nat :: v.ShowsAt(j) <==> HoldsAt(v.Children(), v.Plain(), j)
  {
    ViewInOrder(v);
    PlainMeaning(v.Past(), v.shared, v.p);
    forall e | e in v.Children() ensures e in v.Plain() {
      ShownChildren(v, e);
      var r :| v.Ranked(r) && r.child == e;
      FetchedVisible(v, r);
    }
    forall j: nat ensures v.ShowsAt(j) <==> HoldsAt(v.Children(), v.Plain(), j) {
      if j < |v.Plain()| {
        ShownChildren(v, v.Plain()[j]);
      }
    }
  }

  lemma ShownByPosition(v: View, m: nat)
    requires v.Valid()
    ensures Within(v.Children(), v.Plain())
    ensures v.ShowsFirst(m) <==> HoldsFirst(v.Children(), v.Plain(), m)
    ensures v.ShowsBeyond(m) <==> HoldsBeyond(v.Children(), v.Plain(), m)
    ensures v.ShowsOneBeyond(m) <==> HoldsOneBeyond(v.Children(), v.Plain(), m)
  {
    ShownWithinPlain(v);
  }

  /** Merging the first n children of each group leaves a parent the first n children of the whole
      groups exactly when each of these is shown. */
  lemma TruncatedGroupsSuffice(v: View)
    requires v.Valid()
    ensures Take(v.Children(), v.n) == Take(v.Plain(), v.n) <==> v.ShowsFirst(v.n)
  {
    ShownByPosition(v, v.n);
    HoldsFirstMeansSamePrefix(v.Children(), v.Plain(), v.n);
  }

  // ----- ranks

  // The rank of a row among the rows of its group that parent p is shown.
  function VisibleRank(rows: seq<Row>, shared: bool, p: ParentId, r: Row): nat {
    |set x | x in rows && VisibleTo(x, p, shared) && x.pivot == r.pivot && x.child.key <= r.child.key :: x.child.key|
  }

  /** Where the groups p is shown rows of are shown to it in full, the dense rank of a row it is shown
      does not depend on the other parents of the request. */
  lemma RankIsKept(v: View, r: Row)
    requires v.p in v.parents && v.GroupsVisible() && r in v.Fetched() && VisibleTo(r, v.p, v.shared)
    ensures DenseRank(v.Fetched(), r) == VisibleRank(v.Past(), v.shared, v.p, r)
  {
    forall x: Row | x.pivot == r.pivot ensures x in v.Fetched() <==> x in v.Past() && VisibleTo(x, v.p, v.shared) {
      if VisibleTo(x, v.p, v.shared) {
        FetchedVisible(v, x);
      }
    }
    assert (set x | x in v.Fetched() && x.pivot == r.pivot && x.child.key <= r.child.key :: x.child.key)
        == (set x | x in v.Past() && VisibleTo(x, v.p, v.shared) && x.pivot == r.pivot && x.child.key <= r.child.key
              :: x.child.key);
  }

  // Which is so alone, whatever the groups hold, since the rows of other parents are not read.
  lemma AloneGroupsVisible(v: View)
    requires v.Valid()
    ensures v.Alone().Valid() && v.Alone().GroupsVisible()
  {
    var alone := v.Alone();
    forall x | x in alone.Fetched() ensures VisibleTo(x, v.p, v.shared) {
      FetchedIsPast(alone, x);
      SeekMembers(v.rows, v.cursor, x);
      if InFilters(x.pivot, [v.p]) {
        assert x.pivot == v.p;
      }
    }
  }

  // And where no group mixes system rows with others.
  lemma PureGroupsVisible(v: View)
    requires v.shared ==> SystemGroupsPure(v.rows)
    ensures v.GroupsVisible()
  {
    forall r | r in v.Fetched() ensures r in v.rows {
      FetchedIsPast(v, r);
      SeekMembers(v.rows, v.cursor, r);
    }
  }

  lemma VisibleGroupsShow(v: View, e: Entity)
    requires v.Valid() && v.GroupsVisible()
    ensures v.Shows(e) <==> exists r :: r in v.Past() && VisibleTo(r, v.p, v.shared) && r.child == e
                                        && VisibleRank(v.Past(), v.shared, v.p, r) <= v.n
  {
    forall r | VisibleTo(r, v.p, v.shared)
      ensures v.Ranked(r) <==> r in v.Past() && VisibleRank(v.Past(), v.shared, v.p, r) <= v.n
    {
      FetchedVisible(v, r);
      if r in v.Fetched() {
        RankIsKept(v, r);
      }
    }
  }

  lemma VisibleRankBound(rows: seq<Row>, shared: bool, p: ParentId, r: Row, all: seq<Entity>, i: nat)
    requires Ascending(all) && i < |all| && all[i] == r.child
    requires forall x :: x in rows && VisibleTo(x, p, shared) ==> x.child in all
    ensures VisibleRank(rows, shared, p, r) <= i + 1
  {
    var ranked := set x | x in rows && VisibleTo(x, p, shared) && x.pivot == r.pivot && x.child.key <= r.child.key
                        :: x.child.key;
    var prefix := all[..i + 1];
    forall x | x in rows && VisibleTo(x, p, shared) && x.child.key <= r.child.key ensures x.child.key in Keys(prefix) {
      var j :| 0 <= j < |all| && all[j] == x.child;
      assert prefix[j] == x.child;
    }
    SubsetCardinality(ranked, Keys(prefix));
    KeyCount(prefix);
  }

  /** There the first n children are shown. */
  lemma VisibleGroupsShowFirst(v: View)
    requires v.Valid() && v.GroupsVisible()
    ensures v.ShowsFirst(v.n)
  {
    ViewInOrder(v);
    PlainMeaning(v.Past(), v.shared, v.p);
    forall j: nat | j < v.n && j < |v.Plain()| ensures v.ShowsAt(j) {
      assert v.Plain()[j] in v.Plain();
      var r :| r in v.Past() && VisibleTo(r, v.p, v.shared) && r.child == v.Plain()[j];
      VisibleRankBound(v.Past(), v.shared, v.p, r, v.Plain(), j);
      VisibleGroupsShow(v, v.Plain()[j]);
    }
  }

  // ----- a batch shows a parent no more than loading it alone

  lemma InMoreFilters(pivot: ParentId, some: seq<ParentId>, others: seq<ParentId>)
    requires forall q :: q in some ==> q in others
    ensures InFilters(pivot, some) ==> InFilters(pivot, others)
  {
    if InFilters(pivot, some) {
      forall c | 0 <= c < |pivot| ensures exists q :: q in others && c < |q| && q[c] == pivot[c] {
        var column := pivot[c];
        var q :| q in some && c < |q| && q[c] == pivot[c];
        assert q in others;
      }
    }
  }

  /** Fewer parents in a request show one of them no less. */
  lemma FewerParentsShowMore(v: View, others: seq<ParentId>, e: Entity)
    requires v.p in v.parents && (forall q :: q in v.parents ==> q in others) && v.(parents := others).Shows(e)
    ensures v.Shows(e)
  {
    var w := v.(parents := others);
    var r :| w.Ranked(r) && r.child == e;
    FetchedVisible(v, r);
    FetchedVisible(w, r);
    forall x | x in v.Fetched() ensures x in w.Fetched() {
      FetchedIsPast(v, x);
      FetchedIsPast(w, x);
      InMoreFilters(x.pivot, v.parents, others);
    }
    SubsetCardinality(set x | x in v.Fetched() && x.pivot == r.pivot && x.child.key <= r.child.key :: x.child.key,
                      set x | x in w.Fetched() && x.pivot == r.pivot && x.child.key <= r.child.key :: x.child.key);
  }

  // Whatever the parent is shown alone the batch shows it.
  ghost predicate NothingLost(v: View) {
    forall e :: v.Alone().Shows(e) ==> v.Shows(e)
  }

  /** The children collected for a parent in a batch are among those collected for it alone, and they
      are all of them exactly when the batch shows it what it is shown alone. */
  lemma SameChildrenExactly(v: View)
    requires v.Valid()
    ensures v.Alone().Valid() && Within(v.Children(), v.Alone().Children())
    ensures v.Children() == v.Alone().Children() <==> NothingLost(v)
  {
    AloneGroupsVisible(v);
    ViewInOrder(v);
    ViewInOrder(v.Alone());
    assert v.Alone().(parents := v.parents) == v;
    forall e ensures e in v.Children() <==> v.Shows(e)
             ensures e in v.Alone().Children() <==> v.Alone().Shows(e)
             ensures v.Shows(e) ==> v.Alone().Shows(e) {
      ShownChildren(v, e);
      ShownChildren(v.Alone(), e);
      if v.Shows(e) { FewerParentsShowMore(v.Alone(), v.parents, e); }
    }
    if NothingLost(v) {
      SameElements(v.Children(), v.Alone().Children());
    }
  }

  // Where its groups are shown in full nothing is lost.
  lemma VisibleGroupsLoseNothing(v: View)
    requires v.Valid() && v.GroupsVisible()
    ensures NothingLost(v)
  {
    AloneGroupsVisible(v);
    forall e | v.Alone().Shows(e) ensures v.Shows(e) {
      VisibleGroupsShow(v.Alone(), e);
      VisibleGroupsShow(v, e);
    }
  }

  /** Where no group mixes system rows with others, the children collected for a parent are the same
      whichever other parents share the request. */
  lemma SameChildrenInAnyBatch(v: View, others: seq<ParentId>)
    requires v.Valid() && v.p in others && (v.shared ==> SystemGroupsPure(v.rows))
    ensures v.Children() == v.(parents := others).Children()
  {
    PureGroupsVisible(v);
    PureGroupsVisible(v.(parents := others));
    VisibleGroupsLoseNothing(v);
    VisibleGroupsLoseNothing(v.(parents := others));
    SameChildrenExactly(v);
    SameChildrenExactly(v.(parents := others));
  }

  // ----- pages

  /** The page of a parent in a batch is the page it gets alone exactly when, going forward, the page's
      children are shown and one more where there is one, or, going backward, nothing is lost. */
  ghost predicate PageKept(v: View, direction: Direction)
    requires v.n > 0
  {
    if direction == Forward then
      v.ShowsFirst(v.n - 1) && (|v.Plain()| > v.n - 1 ==> v.ShowsBeyond(v.n - 1))
    else
      NothingLost(v)
  }

  lemma ForwardPageKept(v: View, cursor: Cursor, total: nat)
    requires v.Valid() && v.n > 1
    ensures (PageOf(v.Children(), v.n - 1, cursor, total, Forward)
             == PageOf(v.Alone().Children(), v.n - 1, cursor, total, Forward))
            <==> PageKept(v, Forward)
  {
    ForwardShownKept(v);
    ForwardPagesAgree(v.Children(), v.Alone().Children(), v.n - 1, cursor, total);
  }

  lemma ForwardShownKept(v: View)
    requires v.Valid() && v.n > 1
    ensures Take(v.Children(), v.n - 1) == Take(v.Alone().Children(), v.n - 1)
            && (|v.Children()| > v.n - 1 <==> |v.Alone().Children()| > v.n - 1)
            <==> PageKept(v, Forward)
  {
    AloneTakes(v);
    ShownByPosition(v, v.n - 1);
    AgreesAsPlain(v.Children(), v.Alone().Children(), v.Plain(), v.n);
  }

  lemma AgreesAsPlain(data: seq<Entity>, alone: seq<Entity>, plain: seq<Entity>, n: nat)
    requires n > 0 && Within(data, plain) && Take(alone, n) == Take(plain, n)
    ensures Take(data, n - 1) == Take(alone, n - 1) && (|data| > n - 1 <==> |alone| > n - 1)
            <==> HoldsFirst(data, plain, n - 1) && (|plain| > n - 1 ==> HoldsBeyond(data, plain, n - 1))
  {
    TakeLess(alone, plain, n);
    PageWithin(data, plain, n - 1);
  }

  lemma AloneTakes(v: View)
    requires v.Valid()
    ensures Take(v.Alone().Children(), v.n) == Take(v.Plain(), v.n)
  {
    AloneGroupsVisible(v);
    VisibleGroupsShowFirst(v.Alone());
    TruncatedGroupsSuffice(v.Alone());
  }

  lemma TakeLess(a: seq<Entity>, b: seq<Entity>, n: nat)
    requires n > 0 && Take(a, n) == Take(b, n)
    ensures Take(a, n - 1) == Take(b, n - 1) && (|a| > n - 1 <==> |b| > n - 1)
  {
    PrefixAgrees(a, b, n);
  }

  lemma PageWithin(data: seq<Entity>, plain: seq<Entity>, m: nat)
    requires Within(data, plain)
    ensures Take(data, m) == Take(plain, m) && (|data| > m <==> |plain| > m)
            <==> HoldsFirst(data, plain, m) && (|plain| > m ==> HoldsBeyond(data, plain, m))
  {
    HoldsFirstMeansSamePrefix(data, plain, m);
    if HoldsFirst(data, plain, m) {
      HoldsBeyondMeansLonger(data, plain, m);
      PrefixAgrees(data, plain, m);
      if |data| > m {
        var j := PositionBeyond(data, plain, m, m);
      }
    }
  }

  // A list within another gives its page going backward only if it is the other.
  lemma BackwardPageKept(v: View, cursor: Cursor, total: nat)
    requires v.Valid() && v.n > 1
    ensures (PageOf(v.Children(), v.n - 1, cursor, total, Backward)
             == PageOf(v.Alone().Children(), v.n - 1, cursor, total, Backward))
            <==> PageKept(v, Backward)
  {
    SameChildrenExactly(v);
    BackwardPagesAgree(v.Children(), v.Alone().Children(), v.n - 1, cursor, total);
    if |v.Children()| == |v.Alone().Children()| {
      PrefixMeansFirstOnly(v.Children(), v.Alone().Children(), |v.Children()|);
      SameLengthWithin(v.Children(), v.Alone().Children());
    }
  }

  lemma SameLengthWithin(data: seq<Entity>, plain: seq<Entity>)
    requires Within(data, plain) && |data| == |plain|
    ensures data == plain
  {
    KeyCount(data);
    KeyCount(plain);
    forall e | e in data ensures e.key in Keys(plain) {
      assert e in plain;
    }
    SubsetCardinality(Keys(data), Keys(plain));
    forall e | e in plain ensures e in data {
      assert e.key in Keys(data);
      var d :| d in data && d.key == e.key;
      assert d in plain;
    }
    SameElements(data, plain);
  }

  // ----- totals

  lemma SameTotalInAnyBatch(rows: seq<Row>, parents: seq<ParentId>, shared: bool, p: ParentId)
    requires p in parents
    ensures TotalFor(Where(rows, parents, shared), shared, p) == TotalFor(rows, shared, p)
  {
    var base := Where(rows, parents, shared);
    forall r ensures r in base <==> r in rows && (InFilters(r.pivot, parents) || (shared && r.child.system)) {
      WhereMembers(rows, parents, shared, r);
    }
    assert InFilters(p, parents);
    assert OwnIds(base, p) == OwnIds(rows, p);
    if shared {
      assert SystemPairs(base) == SystemPairs(rows);
    }
  }

  lemma SamePossibleTotals(v: View, total: nat)
    requires v.p in v.parents
    ensures PossibleTotal(Where(v.rows, v.parents, v.shared), v.shared, v.p, total)
            <==> PossibleTotal(Where(v.rows, [v.p], v.shared), v.shared, v.p, total)
  {
    var base, alone := Where(v.rows, v.parents, v.shared), Where(v.rows, [v.p], v.shared);
    assert InFilters(v.p, v.parents) && InFilters(v.p, [v.p]) by { assert v.p in [v.p]; }
    forall r: Row | r.pivot == v.p || (v.shared && r.child.system) ensures r in base <==> r in alone {
      WhereMembers(v.rows, v.parents, v.shared, r);
      WhereMembers(v.rows, [v.p], v.shared, r);
    }
    forall system ensures GroupIds(base, v.shared, v.p, system) == GroupIds(alone, v.shared, v.p, system) {
    }
    if v.shared {
      assert SystemPairs(base) == SystemPairs(alone);
    }
  }

  // ----- batching refines loading each key alone

  // A key names its parent by as many columns as its rows are grouped by.
  ghost predicate Typed(keys: seq<Key>) {
    forall k :: k in keys ==> |k.parent| == |k.pivots| > 0
  }

  // What a database gives for the queries of the keys.
  ghost predicate Serves(db: Database, keys: seq<Key>) {
    forall k :: k in keys ==>
      WellFormed(db(QueryOf(k))) && forall r :: r in db(QueryOf(k)) ==> |r.pivot| == |k.pivots|
  }

  // No group of a shared query mixes system rows with others.
  ghost predicate SystemApart(db: Database, keys: seq<Key>) {
    forall k :: k in keys && k.shared ==> SystemGroupsPure(db(QueryOf(k)))
  }

  // Keys that share an identifier ask for the same query, with the same system column.
  predicate Coherent(keys: seq<Key>) {
    forall j, k :: j in keys && k in keys && RequestIdentifier(j) == RequestIdentifier(k)
                   ==> j.args.filter == k.args.filter && j.shared == k.shared
  }

  function ViewOf(db: Database, k: Key, parents: seq<ParentId>): View {
    View(db(QueryOf(k)), parents, k.shared, k.args.cursor, PageSize(k) + 1, k.parent)
  }

  lemma ViewIsValid(db: Database, k: Key, parents: seq<ParentId>)
    requires Typed([k]) && Serves(db, [k]) && k.parent in parents
    ensures ViewOf(db, k, parents).Valid()
  {
    assert k in [k];
  }

  // A request for the given parents costs k's parent nothing its page shows.
  ghost predicate KeyKept(db: Database, k: Key, parents: seq<ParentId>) {
    PageKept(ViewOf(db, k, parents), DirectionOf(k))
  }

  // A request's answer depends on its key's settings, never on the key's own parent.
  lemma SameSettings(db: Database, j: Key, k: Key, parents: seq<ParentId>, p: ParentId)
    requires RequestIdentifier(j) == RequestIdentifier(k)
    requires j.args.filter == k.args.filter && j.shared == k.shared
    ensures ResponseFor(db, j, parents, p) == ResponseFor(db, k, parents, p)
  {
    assert QueryOf(j) == QueryOf(k) && PageSize(j) == PageSize(k) && DirectionOf(j) == DirectionOf(k);
  }

  lemma SameSettingsSameResponses(db: Database, j: Key, k: Key, parents: seq<ParentId>, p: ParentId, r: Response)
    requires RequestIdentifier(j) == RequestIdentifier(k)
    requires j.args.filter == k.args.filter && j.shared == k.shared
    ensures IsResponse(db, j, parents, p, r) <==> IsResponse(db, k, parents, p, r)
  {
    assert QueryOf(j) == QueryOf(k) && PageSize(j) == PageSize(k) && DirectionOf(j) == DirectionOf(k);
  }

  lemma OneKeyGroup(k: Key)
    ensures Group([k], RequestIdentifier(k)) == [k] && Parents([k]) == [k.parent]
  {
    assert [k][..0] == [];
  }

  lemma AloneAnswer(k: Key, db: Database)
    ensures Answer([k], db, 0) == ResponseFor(db, k, [k.parent], k.parent)
    ensures forall r :: IsAnswer([k], db, 0, r) <==> IsResponse(db, k, [k.parent], k.parent, r)
  {
    OneKeyGroup(k);
  }

  function ParentsOf(keys: seq<Key>, k: Key): seq<ParentId> {
    Parents(Group(keys, RequestIdentifier(k)))
  }

  lemma {:induction false} AnswerInBatch(keys: seq<Key>, db: Database, i: nat)
    requires i < |keys| && Coherent(keys)
    ensures keys[i].parent in ParentsOf(keys, keys[i])
    ensures Answer(keys, db, i) == ResponseFor(db, keys[i], ParentsOf(keys, keys[i]), keys[i].parent)
    ensures forall r :: IsAnswer(keys, db, i, r) <==>
              IsResponse(db, keys[i], ParentsOf(keys, keys[i]), keys[i].parent, r)
  {
    var k := keys[i];
    var group := Group(keys, RequestIdentifier(k));
    assert k in group && group[0] in group;
    SameSettings(db, group[0], k, Parents(group), k.parent);
    forall r ensures IsAnswer(keys, db, i, r) <==> IsResponse(db, k, Parents(group), k.parent, r) {
      SameSettingsSameResponses(db, group[0], k, Parents(group), k.parent, r);
    }
  }

  lemma PageOfView(v: View, direction: Direction, cursor: Cursor, total: nat)
    requires v.Valid() && v.n > 1
    ensures (PageOf(v.Children(), v.n - 1, cursor, total, direction)
             == PageOf(v.Alone().Children(), v.n - 1, cursor, total, direction))
            <==> PageKept(v, direction)
  {
    match direction
    case Forward => ForwardPageKept(v, cursor, total);
    case Backward => BackwardPageKept(v, cursor, total);
  }

  // The page k's parent gets with a total from a request for the given parents.
  function PageWith(db: Database, k: Key, parents: seq<ParentId>, total: Option<nat>): Page {
    PageOf(ViewOf(db, k, parents).Children(), PageSize(k), k.args.cursor, GetOr(total, 0), DirectionOf(k))
  }

  lemma ResponseMeaning(db: Database, k: Key, parents: seq<ParentId>, r: Response)
    requires k.parent in parents
    ensures IsResponse(db, k, parents, k.parent, r)
            <==> && (r.totalCount.Some? <==> k.includeTotalCount)
                 && (r.totalCount.Some? ==>
                       PossibleTotal(Where(db(QueryOf(k)), [k.parent], k.shared), k.shared, k.parent,
                                     r.totalCount.value))
                 && r.page == PageWith(db, k, parents, r.totalCount)
  {
    SamePossibleTotals(ViewOf(db, k, parents), GetOr(r.totalCount, 0));
  }

  lemma SomeTotal(base: seq<Row>, shared: bool, p: ParentId) returns (total: nat)
    ensures PossibleTotal(base, shared, p, total)
  {
    total := SystemCount(base, shared);
    if r :| r in base && r.pivot == p {
      total := total + |GroupIds(base, shared, p, SystemColumn(r, shared))|;
    }
  }

  lemma SomeResponse(db: Database, k: Key, parents: seq<ParentId>) returns (r: Response)
    requires k.parent in parents
    ensures IsResponse(db, k, parents, k.parent, r)
  {
    var total: Option<nat> := None;
    if k.includeTotalCount {
      var t := SomeTotal(Where(db(QueryOf(k)), [k.parent], k.shared), k.shared, k.parent);
      total := Some(t);
    }
    r := Response(total, PageWith(db, k, parents, total));
    ResponseMeaning(db, k, parents, r);
  }

  lemma PageWithKept(db: Database, k: Key, parents: seq<ParentId>, total: Option<nat>)
    requires Typed([k]) && Serves(db, [k]) && k.parent in parents
    ensures PageWith(db, k, parents, total) == PageWith(db, k, [k.parent], total) <==> KeyKept(db, k, parents)
  {
    ViewIsValid(db, k, parents);
    PageOfView(ViewOf(db, k, parents), DirectionOf(k), k.args.cursor, GetOr(total, 0));
  }

  lemma ResponsesKept(db: Database, k: Key, parents: seq<ParentId>)
    requires Typed([k]) && Serves(db, [k]) && k.parent in parents
    ensures (forall r :: IsResponse(db, k, parents, k.parent, r) <==> IsResponse(db, k, [k.parent], k.parent, r))
            <==> KeyKept(db, k, parents)
  {
    forall r
      ensures IsResponse(db, k, parents, k.parent, r) && IsResponse(db, k, [k.parent], k.parent, r)
              ==> KeyKept(db, k, parents)
      ensures KeyKept(db, k, parents)
              ==> (IsResponse(db, k, parents, k.parent, r) <==> IsResponse(db, k, [k.parent], k.parent, r))
    {
      ResponseMeaning(db, k, parents, r);
      ResponseMeaning(db, k, [k.parent], r);
      PageWithKept(db, k, parents, r.totalCount);
    }
    var r := SomeResponse(db, k, parents);
  }

  lemma SpecifiedResponseKept(db: Database, k: Key, parents: seq<ParentId>)
    requires Typed([k]) && Serves(db, [k]) && k.parent in parents
    ensures ResponseFor(db, k, parents, k.parent) == ResponseFor(db, k, [k.parent], k.parent)
            <==> KeyKept(db, k, parents)
  {
    SameTotalInAnyBatch(db(QueryOf(k)), parents, k.shared, k.parent);
    SameTotalInAnyBatch(db(QueryOf(k)), [k.parent], k.shared, k.parent);
    var r, alone := ResponseFor(db, k, parents, k.parent), ResponseFor(db, k, [k.parent], k.parent);
    assert r.page == PageWith(db, k, parents, r.totalCount);
    assert alone.page == PageWith(db, k, [k.parent], alone.totalCount);
    PageWithKept(db, k, parents, r.totalCount);
  }

  // The answers a batch may give its i-th key are those the key may get alone.
  ghost predicate RefinesAt(keys: seq<Key>, db: Database, i: nat)
    requires i < |keys|
  {
    forall r :: IsAnswer(keys, db, i, r) <==> IsAnswer([keys[i]], db, 0, r)
  }

  /** On any database, a coherent batch answers a key as if it had been loaded alone exactly when the
      other parents of its request cost its page nothing. */
  lemma {:induction false} BatchRefinesExactly(keys: seq<Key>, db: Database, i: nat)
    requires i < |keys| && Typed(keys) && Serves(db, keys) && Coherent(keys)
    ensures RefinesAt(keys, db, i) <==> KeyKept(db, keys[i], ParentsOf(keys, keys[i]))
    ensures Answer(keys, db, i) == Answer([keys[i]], db, 0) <==> KeyKept(db, keys[i], ParentsOf(keys, keys[i]))
  {
    var k := keys[i];
    assert k in keys;
    AnswerInBatch(keys, db, i);
    AloneAnswer(k, db);
    ResponsesKept(db, k, ParentsOf(keys, k));
    SpecifiedResponseKept(db, k, ParentsOf(keys, k));
  }

  lemma VisibleGroupsKeepPage(v: View, direction: Direction)
    requires v.Valid() && v.GroupsVisible() && v.n > 0
    ensures PageKept(v, direction)
  {
    VisibleGroupsLoseNothing(v);
    VisibleGroupsShowFirst(v);
    if |v.Plain()| > v.n - 1 {
      assert v.ShowsAt(v.n - 1);
    }
  }

  /** So it does for every key where no group mixes system rows with others. */
  lemma {:induction false} BatchRefinesSingle(keys: seq<Key>, db: Database, i: nat)
    requires i < |keys| && Typed(keys) && Serves(db, keys) && Coherent(keys) && SystemApart(db, keys)
    ensures RefinesAt(keys, db, i) && Answer(keys, db, i) == Answer([keys[i]], db, 0)
  {
    var k := keys[i];
    assert k in keys;
    AnswerInBatch(keys, db, i);
    ViewIsValid(db, k, ParentsOf(keys, k));
    PureGroupsVisible(ViewOf(db, k, ParentsOf(keys, k)));
    VisibleGroupsKeepPage(ViewOf(db, k, ParentsOf(keys, k)), DirectionOf(k));
    BatchRefinesExactly(keys, db, i);
  }

  // ----- parts of a batch

  // The batch costs none of its keys anything.
  ghost predicate AllKept(db: Database, keys: seq<Key>) {
    forall k :: k in keys ==> KeyKept(db, k, ParentsOf(keys, k))
  }

  lemma {:induction false} PartOfParents(part: seq<Key>, q: ParentId)
    ensures q in Parents(part) <==> exists k :: k in part && k.parent == q
  {
    if part != [] {
      PartOfParents(part[..|part| - 1], q);
      assert part == part[..|part| - 1] + [part[|part| - 1]];
    }
  }

  lemma FewerParentsKeepPage(v: View, others: seq<ParentId>, direction: Direction)
    requires v.p in v.parents && (forall q :: q in v.parents ==> q in others) && v.n > 0
    requires PageKept(v.(parents := others), direction)
    ensures PageKept(v, direction)
  {
    var w := v.(parents := others);
    assert w.Alone() == v.Alone() && w.Plain() == v.Plain();
    forall e | w.Shows(e) ensures v.Shows(e) {
      FewerParentsShowMore(v, others, e);
    }
    assert forall j: nat :: w.ShowsAt(j) ==> v.ShowsAt(j);
  }

  lemma PartOfBatch(part: seq<Key>, keys: seq<Key>, db: Database)
    requires forall k :: k in part ==> k in keys
    requires Typed(keys) && Serves(db, keys) && Coherent(keys) && AllKept(db, keys)
    ensures Typed(part) && Serves(db, part) && Coherent(part) && AllKept(db, part)
  {
    forall k | k in part ensures KeyKept(db, k, ParentsOf(part, k)) {
      forall q ensures q in ParentsOf(part, k) ==> q in ParentsOf(keys, k) {
        PartOfParents(Group(part, RequestIdentifier(k)), q);
        PartOfParents(Group(keys, RequestIdentifier(k)), q);
      }
      assert k in Group(part, RequestIdentifier(k));
      FewerParentsKeepPage(ViewOf(db, k, ParentsOf(part, k)), ParentsOf(keys, k), DirectionOf(k));
    }
  }

  // A key is answered alike in every batch that costs it nothing.
  lemma {:induction false} SameKeySameAnswer(keys: seq<Key>, i: nat, others: seq<Key>, j: nat, db: Database)
    requires i < |keys| && j < |others| && keys[i] == others[j]
    requires Typed(keys) && Serves(db, keys) && Coherent(keys) && AllKept(db, keys)
    requires Typed(others) && Serves(db, others) && Coherent(others) && AllKept(db, others)
    ensures Answer(keys, db, i) == Answer(others, db, j)
  {
    BatchRefinesExactly(keys, db, i);
    BatchRefinesExactly(others, db, j);
    assert keys[i] in keys && others[j] in others;
  }

  ghost predicate EachAsAlone(keys: seq<Key>, db: Database) {
    forall i :: 0 <= i < |keys| ==> Answers(keys, db)[i] == Answer([keys[i]], db, 0)
  }

  lemma {:induction false} KeptIsAsAlone(keys: seq<Key>, db: Database)
    requires Typed(keys) && Serves(db, keys) && Coherent(keys) && AllKept(db, keys)
    ensures EachAsAlone(keys, db)
  {
    forall i | 0 <= i < |keys| ensures Answers(keys, db)[i] == Answer([keys[i]], db, 0) {
      assert keys[i] in keys;
      BatchRefinesExactly(keys, db, i);
    }
  }

  lemma {:induction false} SliceAsAlone(part: seq<Key>, keys: seq<Key>, from: nat, db: Database)
    requires from + |part| <= |keys| && part == keys[from..from + |part|]
    requires EachAsAlone(part, db) && EachAsAlone(keys, db)
    ensures Answers(part, db) == Answers(keys, db)[from..from + |part|]
  {
    var answers, slice := Answers(part, db), Answers(keys, db)[from..from + |part|];
    forall i | 0 <= i < |part| ensures answers[i] == slice[i] {
      assert part[i] == keys[from + i];
    }
  }

  // Part of a batch, loaded on its own, gets its part of the answers.
  lemma {:induction false} AnswersOfPart(part: seq<Key>, keys: seq<Key>, from: nat, db: Database)
    requires from + |part| <= |keys| && part == keys[from..from + |part|]
    requires Typed(keys) && Serves(db, keys) && Coherent(keys) && AllKept(db, keys)
    ensures Answers(part, db) == Answers(keys, db)[from..from + |part|]
  {
    PartOfBatch(part, keys, db);
    KeptIsAsAlone(part, db);
    KeptIsAsAlone(keys, db);
    SliceAsAlone(part, keys, from, db);
  }

  /** Loading two batches together is loading them one after the other, if it costs no key anything. */
  lemma {:induction false} BatchesConcatenate(a: seq<Key>, b: seq<Key>, keys: seq<Key>, db: Database)
    requires keys == a + b && Typed(keys) && Serves(db, keys) && Coherent(keys) && AllKept(db, keys)
    ensures Answers(keys, db) == Answers(a, db) + Answers(b, db)
  {
    AnswersOfPart(a, keys, 0, db);
    AnswersOfPart(b, keys, |a|, db);
    JoinSlices(Answers(keys, db), Answers(a, db), Answers(b, db));
  }

  lemma JoinSlices(whole: seq<Response>, first: seq<Response>, second: seq<Response>)
    requires |whole| == |first| + |second|
    requires first == whole[0..0 + |first|] && second == whole[|first|..|first| + |second|]
    ensures whole == first + second
  {
  }

  // Which is so where no group mixes system rows with others.
  lemma {:induction false} ApartIsKept(keys: seq<Key>, db: Database)
    requires Typed(keys) && Serves(db, keys) && Coherent(keys) && SystemApart(db, keys)
    ensures AllKept(db, keys)
  {
    forall k | k in keys ensures KeyKept(db, k, ParentsOf(keys, k)) {
      var i :| 0 <= i < |keys| && keys[i] == k;
      BatchRefinesSingle(keys, db, i);
      BatchRefinesExactly(keys, db, i);
    }
  }

  // ----- what happens when an identifier stands for two different queries

  ghost predicate RefinesSingle(keys: seq<Key>, db: Database) {
    forall i :: 0 <= i < |keys| ==> RefinesAt(keys, db, i)
  }

  lemma PageIsEmptyWithItsData(data: seq<Entity>, pageSize: nat, cursor: Cursor, totalCount: nat, direction: Direction)
    requires pageSize > 0
    ensures PageOf(data, pageSize, cursor, totalCount, direction).edges == [] <==> data == []
  {
  }

  lemma EdgesOfChildren(db: Database, k: Key, parents: seq<ParentId>, p: ParentId, r: Response)
    requires IsResponse(db, k, parents, p, r)
    ensures r.page.edges == []
            <==> View(db(QueryOf(k)), parents, k.shared, k.args.cursor, PageSize(k) + 1, p).Children() == []
  {
    PageIsEmptyWithItsData(View(db(QueryOf(k)), parents, k.shared, k.args.cursor, PageSize(k) + 1, p).Children(),
                           PageSize(k), k.args.cursor, GetOr(r.totalCount, 0), DirectionOf(k));
  }

  function PastCursorKey(cursor: Cursor): int {
    if cursor.After? then cursor.key + 1 else 0
  }

  lemma OneRowPast(v: View, row: Row)
    requires v.rows == [row] && row.child.key == PastCursorKey(v.cursor)
    ensures forall r :: r in v.Past() <==> r == row
  {
    forall r ensures r in v.Past() <==> r == row {
      SeekMembers(v.rows, v.cursor, r);
    }
  }

  // A parent of a request over one row past the cursor collects a child exactly when it sees the row.
  lemma OneRowChildren(v: View, row: Row)
    requires v.rows == [row] && row.child.key == PastCursorKey(v.cursor) && v.p in v.parents && v.n > 0
    ensures v.Children() == [] <==> !VisibleTo(row, v.p, v.shared)
  {
    OneRowPast(v, row);
    if VisibleTo(row, v.p, v.shared) {
      FetchedVisible(v, row);
      forall r | r in v.Fetched() ensures r == row { FetchedIsPast(v, r); }
      SubsetCardinality(set x | x in v.Fetched() && x.pivot == row.pivot && x.child.key <= row.child.key :: x.child.key,
                        {row.child.key});
      assert v.Ranked(row);
      ShownChildren(v, row.child);
    } else if v.Children() != [] {
      ShownChildren(v, v.Children()[0]);
      var r :| v.Ranked(r) && r.child == v.Children()[0];
      FetchedVisible(v, r);
    }
  }

  lemma NoRowsNoChildren(v: View)
    requires v.rows == []
    ensures v.Children() == []
  {
  }

  // The row that tells the settings of g from those of k: one of k's parent, or, where they differ in
  // the system column only, a system row of another group.
  function TellingRow(g: Key, k: Key): Row
    requires |k.parent| > 0
  {
    if g.args.filter != k.args.filter then Row(k.parent, Entity("child", PastCursorKey(k.args.cursor), false))
    else Row(k.parent[0 := k.parent[0] + "x"], Entity("child", PastCursorKey(k.args.cursor), true))
  }

  // A database on which k's parent is answered differently under the settings of g.
  function TellingDatabase(g: Key, k: Key): Database
    requires |k.parent| > 0
  {
    (q: Query) => if q == QueryOf(g) then [TellingRow(g, k)] else []
  }

  lemma TellApart(g: Key, k: Key, parents: seq<ParentId>, r: Response, alone: Response)
    requires RequestIdentifier(g) == RequestIdentifier(k) && |k.parent| > 0 && k.parent in parents
    requires g.args.filter != k.args.filter || g.shared != k.shared
    requires IsResponse(TellingDatabase(g, k), g, parents, k.parent, r)
    requires IsResponse(TellingDatabase(g, k), k, [k.parent], k.parent, alone)
    ensures r.page.edges == [] <==> alone.page.edges != []
  {
    var db, row := TellingDatabase(g, k), TellingRow(g, k);
    var v := View(db(QueryOf(g)), parents, g.shared, g.args.cursor, PageSize(g) + 1, k.parent);
    EdgesOfChildren(db, g, parents, k.parent, r);
    EdgesOfChildren(db, k, [k.parent], k.parent, alone);
    OneRowChildren(v, row);
    if g.args.filter != k.args.filter {
      NoRowsNoChildren(ViewOf(db, k, [k.parent]));
    } else {
      assert |row.pivot[0]| != |k.parent[0]|;
      OneRowChildren(ViewOf(db, k, [k.parent]), row);
    }
  }

  lemma TellingDatabaseServes(g: Key, k: Key, keys: seq<Key>)
    requires Typed(keys) && g in keys && k in keys && RequestIdentifier(g) == RequestIdentifier(k)
    ensures |k.parent| > 0 && Serves(TellingDatabase(g, k), keys) && SystemApart(TellingDatabase(g, k), keys)
  {
    forall q | q in keys ensures forall r :: r in TellingDatabase(g, k)(QueryOf(q)) ==> |r.pivot| == |q.pivots| {
      if QueryOf(q) == QueryOf(g) {
        assert q.pivots == g.pivots == k.pivots;
      }
    }
  }

  /** A batch that puts two different queries under one identifier is answered wrongly on some database,
      one that keeps system rows apart. */
  lemma {:induction false} IncoherentBatch(keys: seq<Key>) returns (db: Database)
    requires Typed(keys) && !Coherent(keys)
    ensures Serves(db, keys) && SystemApart(db, keys) && !RefinesSingle(keys, db)
  {
    var j, k :| j in keys && k in keys && RequestIdentifier(j) == RequestIdentifier(k)
                && !(j.args.filter == k.args.filter && j.shared == k.shared);
    var group := Group(keys, RequestIdentifier(k));
    assert k in group && j in group;
    var first := group[0];
    assert first in group;
    var other := if first.args.filter == k.args.filter && first.shared == k.shared then j else k;
    assert other in group && RequestIdentifier(other) == RequestIdentifier(first);
    var i :| 0 <= i < |keys| && keys[i] == other;
    TellingDatabaseServes(first, other, keys);
    db := TellingDatabase(first, other);
    var r := SomeResponse(db, other, [other.parent]);
    AloneAnswer(other, db);
    if RefinesAt(keys, db, i) {
      assert IsAnswer(keys, db, i, r);
      TellApart(first, other, Parents(group), r, r);
    }
  }

  /** On databases that keep system rows apart, batching refines loading one key at a time exactly for
      coherent batches. */
  lemma {:induction false} BatchingIsExact(keys: seq<Key>)
    requires Typed(keys)
    ensures Coherent(keys) <==> forall db :: Serves(db, keys) && SystemApart(db, keys) ==> RefinesSingle(keys, db)
  {
    if Coherent(keys) {
      forall db | Serves(db, keys) && SystemApart(db, keys) ensures RefinesSingle(keys, db) {
        forall i | 0 <= i < |keys| ensures RefinesAt(keys, db, i) {
          BatchRefinesSingle(keys, db, i);
        }
      }
    } else {
      var db := IncoherentBatch(keys);
    }
  }

  /** The identifier sees which fields a filter names and not what it asks of them, so two filters
      on one field get one identifier and their batch is not coherent. */
  lemma FilterConditionsAreNotIdentified(k: Key, field: string, c: map<string, Json>, d: map<string, Json>)
    requires field !in c && field !in d && c != d
    ensures var j1 := k.(args := k.args.(filter := Object(map[field := Object(c)])));
            var j2 := k.(args := k.args.(filter := Object(map[field := Object(d)])));
            RequestIdentifier(j1) == RequestIdentifier(j2) && !Coherent([j1, j2])
  {
    var f, g := Object(map[field := Object(c)]), Object(map[field := Object(d)]);
    var erased := Object(map[field := Object(map[])]);
    assert f.fields.Keys == {field} == g.fields.Keys;
    assert Pick(Object(c), {field}) == Object(map[]) == Pick(Object(d), {field});
    assert Pick(f, {field}).fields == erased.fields;
    assert Pick(g, {field}).fields == erased.fields;
    var j1, j2 := k.(args := k.args.(filter := f)), k.(args := k.args.(filter := g));
    assert f.fields[field] != g.fields[field];
    assert j1 in [j1, j2] && j2 in [j1, j2];
  }

  // ----- what happens when groups mix system rows with others

  lemma {:induction false} WhereSame(rows: seq<Row>, some: seq<ParentId>, others: seq<ParentId>, shared: bool)
    requires forall q :: q in some <==> q in others
    ensures Where(rows, some, shared) == Where(rows, others, shared)
  {
    if rows != [] {
      WhereSame(rows[..|rows| - 1], some, others, shared);
      InMoreFilters(rows[|rows| - 1].pivot, some, others);
      InMoreFilters(rows[|rows| - 1].pivot, others, some);
    }
  }

  // Keys of one shared request name one parent.
  predicate OneParentWhereShared(keys: seq<Key>) {
    forall j, k :: j in keys && k in keys && RequestIdentifier(j) == RequestIdentifier(k) && k.shared
                   ==> j.parent == k.parent
  }

  lemma NothingMixesUnshared(v: View)
    requires !v.shared
    ensures v.GroupsVisible()
  {
  }

  lemma {:induction false} OneParentIsKept(keys: seq<Key>, db: Database, k: Key)
    requires k in keys && Typed(keys) && Serves(db, keys) && OneParentWhereShared(keys)
    ensures KeyKept(db, k, ParentsOf(keys, k))
  {
    var v := ViewOf(db, k, ParentsOf(keys, k));
    assert k in Group(keys, RequestIdentifier(k));
    ViewIsValid(db, k, ParentsOf(keys, k));
    if k.shared {
      forall q ensures q in ParentsOf(keys, k) <==> q in [k.parent] {
        PartOfParents(Group(keys, RequestIdentifier(k)), q);
      }
      WhereSame(v.rows, v.parents, [v.p], v.shared);
      AloneGroupsVisible(v);
    }
    VisibleGroupsKeepPage(v, DirectionOf(k));
  }

  // A relation in which a group holds n children before its one system child.
  function CrowdedRow(pivot: ParentId, first: int, n: nat, i: nat): Row {
    Row(pivot, Entity(seq(i, _ => 'x'), first + i, i == n))
  }

  function Crowded(pivot: ParentId, first: int, n: nat): (rows: seq<Row>)
    ensures |rows| == n + 1 && forall i :: 0 <= i <= n ==> rows[i] == CrowdedRow(pivot, first, n, i)
  {
    seq(n + 1, i requires i >= 0 => CrowdedRow(pivot, first, n, i))
  }

  lemma CrowdedIsWellFormed(pivot: ParentId, first: int, n: nat)
    ensures WellFormed(Crowded(pivot, first, n))
  {
    var rows := Crowded(pivot, first, n);
    forall r, s | r in rows && s in rows && (r.child.id == s.child.id || r.child.key == s.child.key)
      ensures r.child == s.child
    {
      var i, j :| 0 <= i <= n && 0 <= j <= n && rows[i] == r && rows[j] == s;
      assert |r.child.id| == i && |s.child.id| == j;
    }
  }

  lemma CrowdedPast(v: View, other: ParentId, r: Row)
    requires v.rows == Crowded(other, PastCursorKey(v.cursor), v.n)
    ensures r in v.Past() <==> r in v.rows
  {
    SeekMembers(v.rows, v.cursor, r);
    if r in v.rows {
      var i :| 0 <= i <= v.n && v.rows[i] == r;
    }
  }

  // Loaded alone, a parent is shown the system child of the crowded group.
  lemma CrowdedShownAlone(v: View, other: ParentId)
    requires v.Valid() && v.rows == Crowded(other, PastCursorKey(v.cursor), v.n) && v.shared && other != v.p && v.n > 0
    ensures v.Alone().Children() != []
  {
    var r := v.rows[v.n];
    CrowdedPast(v, other, r);
    AloneGroupsVisible(v);
    forall x | x in v.Past() && VisibleTo(x, v.p, true) ensures x == r {
      CrowdedPast(v, other, x);
      var i :| 0 <= i <= v.n && v.rows[i] == x;
    }
    SubsetCardinality(set x | x in v.Past() && VisibleTo(x, v.p, true) && x.pivot == r.pivot
                              && x.child.key <= r.child.key :: x.child.key, {r.child.key});
    VisibleGroupsShow(v.Alone(), r.child);
    ShownChildren(v.Alone(), r.child);
  }

  // Where the crowded group's parent is in the request, it ranks behind the others.
  lemma CrowdedRank(v: View, other: ParentId)
    requires v.Valid() && v.rows == Crowded(other, PastCursorKey(v.cursor), v.n) && other in v.parents
    ensures DenseRank(v.Fetched(), v.rows[v.n]) > v.n
  {
    var es := seq(v.n + 1, j requires 0 <= j <= v.n => v.rows[j].child);
    forall e | e in es ensures exists x :: x in v.Fetched() && x.pivot == other && x.child == e {
      var j :| 0 <= j <= v.n && es[j] == e;
      CrowdedPast(v, other, v.rows[j]);
      assert InFilters(other, v.parents);
      FetchedIsPast(v, v.rows[j]);
    }
    RankAtLeast(v.Fetched(), v.rows[v.n], es);
  }

  // So it is not shown.
  lemma CrowdedOut(v: View, other: ParentId)
    requires v.Valid() && v.rows == Crowded(other, PastCursorKey(v.cursor), v.n) && v.shared && other != v.p
    requires other in v.parents
    ensures v.Children() == []
  {
    CrowdedRank(v, other);
    forall r | r in v.Fetched() && VisibleTo(r, v.p, v.shared) ensures DenseRank(v.Fetched(), r) > v.n {
      FetchedVisible(v, r);
      CrowdedPast(v, other, r);
      var i :| 0 <= i <= v.n && v.rows[i] == r;
    }
    forall e ensures e !in v.Children() {
      ShownChildren(v, e);
    }
    ViewInOrder(v);
    KeyCount(v.Children());
    assert Keys(v.Children()) == {};
  }

  function CrowdedDatabase(k: Key, other: ParentId): Database {
    (q: Query) => if q == QueryOf(k) then Crowded(other, PastCursorKey(k.args.cursor), PageSize(k) + 1) else []
  }

  lemma CrowdedDatabaseServes(k: Key, other: ParentId, keys: seq<Key>)
    requires k in keys && |other| == |k.pivots|
    ensures Serves(CrowdedDatabase(k, other), keys)
  {
    CrowdedIsWellFormed(other, PastCursorKey(k.args.cursor), PageSize(k) + 1);
    forall q | q in keys ensures forall r :: r in CrowdedDatabase(k, other)(QueryOf(q)) ==> |r.pivot| == |q.pivots| {
      if QueryOf(q) == QueryOf(k) {
        assert q.pivots == k.pivots;
      }
    }
  }

  /** With another parent in its shared request, a parent can lose a system child it gets alone: one that
      the other parent's group ranks behind as many children as a request reads. */
  lemma {:induction false} SystemChildCanBeLost(keys: seq<Key>, i: nat, j: Key)
    requires Typed(keys) && Coherent(keys) && i < |keys| && j in keys
    requires RequestIdentifier(j) == RequestIdentifier(keys[i]) && keys[i].shared && j.parent != keys[i].parent
    ensures Serves(CrowdedDatabase(keys[i], j.parent), keys)
    ensures Answer([keys[i]], CrowdedDatabase(keys[i], j.parent), 0).page.edges != []
    ensures Answer(keys, CrowdedDatabase(keys[i], j.parent), i).page.edges == []
    ensures !RefinesAt(keys, CrowdedDatabase(keys[i], j.parent), i)
  {
    var k, db := keys[i], CrowdedDatabase(keys[i], j.parent);
    assert k in keys && j.pivots == k.pivots;
    CrowdedDatabaseServes(k, j.parent, keys);
    AnswerInBatch(keys, db, i);
    AloneAnswer(k, db);
    var v := ViewOf(db, k, ParentsOf(keys, k));
    ViewIsValid(db, k, ParentsOf(keys, k));
    assert j in Group(keys, RequestIdentifier(k));
    CrowdedShownAlone(v, j.parent);
    CrowdedOut(v, j.parent);
    CrowdedPages(db, k, ParentsOf(keys, k));
    BatchRefinesExactly(keys, db, i);
  }

  lemma CrowdedPages(db: Database, k: Key, parents: seq<ParentId>)
    requires ViewOf(db, k, parents).Children() == [] && ViewOf(db, k, [k.parent]).Children() != []
    ensures ResponseFor(db, k, parents, k.parent).page.edges == []
    ensures ResponseFor(db, k, [k.parent], k.parent).page.edges != []
  {
    PageIsEmptyWithItsData([], PageSize(k), k.args.cursor,
                           GetOr(ResponseFor(db, k, parents, k.parent).totalCount, 0), DirectionOf(k));
    PageIsEmptyWithItsData(ViewOf(db, k, [k.parent]).Children(), PageSize(k), k.args.cursor,
                           GetOr(ResponseFor(db, k, [k.parent], k.parent).totalCount, 0), DirectionOf(k));
  }

  lemma {:induction false} OneParentRefines(keys: seq<Key>, db: Database)
    requires Typed(keys) && Serves(db, keys) && Coherent(keys) && OneParentWhereShared(keys)
    ensures RefinesSingle(keys, db)
  {
    forall i | 0 <= i < |keys| ensures RefinesAt(keys, db, i) {
      assert keys[i] in keys;
      OneParentIsKept(keys, db, keys[i]);
      BatchRefinesExactly(keys, db, i);
    }
  }

  /** On every database, batching refines loading one key at a time exactly for coherent batches whose
      requests with a system column name one parent each. */
  lemma {:induction false} BatchingIsExactEverywhere(keys: seq<Key>)
    requires Typed(keys)
    ensures Coherent(keys) && OneParentWhereShared(keys)
            <==> forall db :: Serves(db, keys) ==> RefinesSingle(keys, db)
  {
    if !Coherent(keys) {
      var db := IncoherentBatch(keys);
    } else if !OneParentWhereShared(keys) {
      var j, k :| j in keys && k in keys && RequestIdentifier(j) == RequestIdentifier(k) && k.shared
                  && j.parent != k.parent;
      var i :| 0 <= i < |keys| && keys[i] == k;
      SystemChildCanBeLost(keys, i, j);
      assert !RefinesSingle(keys, CrowdedDatabase(k, j.parent));
    } else {
      forall db | Serves(db, keys) ensures RefinesSingle(keys, db) {
        OneParentRefines(keys, db);
      }
    }
  }
}
