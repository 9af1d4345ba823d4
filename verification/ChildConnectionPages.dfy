/**
 What the pages of a child connection are: when a page is the one a plain query would give, what
 it tells of its neighbours, what the first page backwards holds, and what totals count.
 */
module ChildConnectionPages {
  import opened Collections
  import opened ChildRelation
  import opened ConnectionKeys
  import opened ChildConnectionLoader
  import opened ChildConnectionTheorems

  // ----- a page against the page of a plain query

  lemma TakeOfTake(plain: seq<Entity>, size: nat)
    ensures Take(Take(plain, size + 1), size) == Take(plain, size)
    ensures |Take(plain, size + 1)| > size <==> |plain| > size
  {
  }

  lemma PlainForward(data: seq<Entity>, plain: seq<Entity>, size: nat, cursor: Cursor, total: nat)
    requires size > 0 && Within(data, plain)
    ensures PageOf(data, size, cursor, total, Forward) == PageOf(Take(plain, size + 1), size, cursor, total, Forward)
            <==> HoldsFirst(data, plain, size) && (|plain| > size ==> HoldsBeyond(data, plain, size))
  {
    ForwardPagesAgree(data, Take(plain, size + 1), size, cursor, total);
    TakeOfTake(plain, size);
    PageWithin(data, plain, size);
  }

  // Two lists, one of which is cut from what the other is within, hold one more than a page that agrees.
  lemma OneMoreAgrees(data: seq<Entity>, plain: seq<Entity>, size: nat)
    requires Within(data, plain) && |plain| > size
    ensures |data| == size + 1 && data[..size] == plain[..size]
            <==> HoldsFirst(data, plain, size) && HoldsOneBeyond(data, plain, size)
  {
    HoldsFirstMeansSamePrefix(data, plain, size);
    if HoldsFirst(data, plain, size) {
      HoldsOneBeyondMeansOneLonger(data, plain, size);
    }
  }

  lemma PlainBackward(data: seq<Entity>, plain: seq<Entity>, size: nat, cursor: Cursor, total: nat)
    requires size > 0 && Within(data, plain)
    ensures PageOf(data, size, cursor, total, Backward) == PageOf(Take(plain, size + 1), size, cursor, total, Backward)
            <==> || (HoldsFirst(data, plain, size + 1) && !HoldsBeyond(data, plain, size + 1))
                 || (AdjustPageSize(size, cursor, total, Backward) == size && |plain| > size
                     && HoldsFirst(data, plain, size) && HoldsOneBeyond(data, plain, size))
  {
    var cut, adjusted := Take(plain, size + 1), AdjustPageSize(size, cursor, total, Backward);
    BackwardPagesAgree(data, cut, size, cursor, total);
    PrefixMeansFirstOnly(data, plain, size + 1);
    if |plain| > size {
      OneMoreAgrees(data, plain, size);
      assert cut[..size] == plain[..size];
    } else if |data| == |cut| {
      SameLengthWithin(data, plain);
    }
  }

  // When a request shows a parent what makes its page the plain one; `full` says that a page going
  // backwards is not shortened.
  ghost predicate ShowsPlainPage(v: View, direction: Direction, full: bool)
    requires v.n > 0
  {
    if direction == Forward then
      v.ShowsFirst(v.n - 1) && (|v.Plain()| > v.n - 1 ==> v.ShowsBeyond(v.n - 1))
    else
      || (v.ShowsFirst(v.n) && !v.ShowsBeyond(v.n))
      || (full && |v.Plain()| > v.n - 1 && v.ShowsFirst(v.n - 1) && v.ShowsOneBeyond(v.n - 1))
  }

  predicate FullPage(k: Key, total: Option<nat>) {
    AdjustPageSize(PageSize(k), k.args.cursor, GetOr(total, 0), Backward) == PageSize(k)
  }

  function PlainPage(db: Database, k: Key, total: Option<nat>): Page {
    PageOf(Take(PlainChildren(Seek(db(QueryOf(k)), k.args.cursor), k.shared, k.parent), PageSize(k) + 1),
           PageSize(k), k.args.cursor, GetOr(total, 0), DirectionOf(k))
  }

  lemma ForwardIsPlain(v: View, cursor: Cursor, total: nat, full: bool)
    requires v.Valid() && v.n > 1
    ensures (PageOf(v.Children(), v.n - 1, cursor, total, Forward)
             == PageOf(Take(v.Plain(), v.n), v.n - 1, cursor, total, Forward))
            <==> ShowsPlainPage(v, Forward, full)
  {
    ShownByPosition(v, v.n - 1);
    PlainForward(v.Children(), v.Plain(), v.n - 1, cursor, total);
  }

  lemma BackwardIsPlain(v: View, cursor: Cursor, total: nat)
    requires v.Valid() && v.n > 1
    ensures (PageOf(v.Children(), v.n - 1, cursor, total, Backward)
             == PageOf(Take(v.Plain(), v.n), v.n - 1, cursor, total, Backward))
            <==> ShowsPlainPage(v, Backward, AdjustPageSize(v.n - 1, cursor, total, Backward) == v.n - 1)
  {
    ShownByPosition(v, v.n - 1);
    ShownByPosition(v, v.n);
    PlainBackward(v.Children(), v.Plain(), v.n - 1, cursor, total);
  }

  lemma ViewPageIsPlain(v: View, direction: Direction, cursor: Cursor, total: nat)
    requires v.Valid() && v.n > 1
    ensures (PageOf(v.Children(), v.n - 1, cursor, total, direction)
             == PageOf(Take(v.Plain(), v.n), v.n - 1, cursor, total, direction))
            <==> ShowsPlainPage(v, direction, AdjustPageSize(v.n - 1, cursor, total, Backward) == v.n - 1)
  {
    match direction
    case Forward => ForwardIsPlain(v, cursor, total, AdjustPageSize(v.n - 1, cursor, total, Backward) == v.n - 1);
    case Backward => BackwardIsPlain(v, cursor, total);
  }

  lemma PageIsPlain(db: Database, k: Key, parents: seq<ParentId>, total: Option<nat>)
    requires ViewOf(db, k, parents).Valid()
    ensures PageWith(db, k, parents, total) == PlainPage(db, k, total)
            <==> ShowsPlainPage(ViewOf(db, k, parents), DirectionOf(k), FullPage(k, total))
  {
    ViewPageIsPlain(ViewOf(db, k, parents), DirectionOf(k), k.args.cursor, GetOr(total, 0));
  }

  /** In any coherent batch, the page of a key is the page of the plain query over its own and the system
      children, cut at one more than the page size, exactly when it is shown what that page shows:
      going forward, the page's children and one more where there is one; going backwards, the first
      children up to the cut and no other, or, where the page is full, another in place of the last. */
  lemma {:induction false} AnswerIsPlainPage(keys: seq<Key>, db: Database, i: nat, r: Response)
    requires i < |keys| && Typed(keys) && Serves(db, keys) && Coherent(keys) && IsAnswer(keys, db, i, r)
    ensures r.page == PlainPage(db, keys[i], r.totalCount)
            <==> ShowsPlainPage(ViewOf(db, keys[i], ParentsOf(keys, keys[i])), DirectionOf(keys[i]),
                                FullPage(keys[i], r.totalCount))
  {
    var k := keys[i];
    assert k in keys;
    AnswerInBatch(keys, db, i);
    ViewIsValid(db, k, ParentsOf(keys, k));
    ResponseMeaning(db, k, ParentsOf(keys, k), r);
    PageIsPlain(db, k, ParentsOf(keys, k), r.totalCount);
  }

  // ----- page information

  // The children a request shows a parent.
  ghost function ShownCount(v: View): nat {
    |set e | e in v.Plain() && v.Shows(e)|
  }

  ghost function Elements(es: seq<Entity>): set<Entity> {
    set e | e in es
  }

  lemma {:induction false} ElementCount(es: seq<Entity>)
    requires Ascending(es)
    ensures |Elements(es)| == |es|
  {
    if es == [] {
      assert Elements(es) == {};
    } else {
      var init, last := es[..|es| - 1], es[|es| - 1];
      LastKeyIsNew(es);
      ElementCount(init);
      ElementsGrow(init, last);
      assert es == init + [last];
    }
  }

  lemma ElementsGrow(init: seq<Entity>, last: Entity)
    requires last.key !in Keys(init)
    ensures |Elements(init + [last])| == |Elements(init)| + 1
  {
    assert Elements(init + [last]) == Elements(init) + {last};
  }

  lemma ShownAreCollected(v: View)
    requires v.Valid()
    ensures |v.Children()| == ShownCount(v)
  {
    ViewInOrder(v);
    ShownWithinPlain(v);
    forall e ensures e in v.Children() <==> v.Shows(e) {
      ShownChildren(v, e);
    }
    assert Elements(v.Children()) == (set e | e in v.Plain() && v.Shows(e));
    ElementCount(v.Children());
  }

  // How many children the page of a key holds when more are shown: its count, fifty if it gives none, or
  // what the total leaves over full pages on the first page backwards.
  ghost function CutTo(k: Key, total: Option<nat>): nat {
    var size := if k.args.count.Some? && k.args.count.value > 0 then k.args.count.value else 50;
    if k.args.direction == Some(Backward) && k.args.cursor == Start && total.Some? && total.value % size != 0
    then total.value % size else size
  }

  // A page says what there is beside it: on the side it came from whether a cursor was given, on the
  // other whether more than it was to hold are shown; its cursors are those of its first and last edge.
  ghost predicate TellsNeighbours(page: Page, k: Key, shown: nat, total: Option<nat>) {
    && (k.args.direction == Some(Backward) ==>
          && (page.hasPreviousPage <==> shown > CutTo(k, total))
          && (page.hasNextPage <==> k.args.cursor != Start))
    && (k.args.direction != Some(Backward) ==>
          && (page.hasNextPage <==> shown > CutTo(k, total))
          && (page.hasPreviousPage <==> k.args.cursor != Start))
    && page.startCursor == (if page.edges == [] then None else Some(page.edges[0]))
    && page.endCursor == (if page.edges == [] then None else Some(page.edges[|page.edges| - 1]))
  }

  // It lists the children it is shown in order up to the cut going forward, and going backwards in
  // reverse, all of them unless they are one more than the cut.
  ghost predicate ListsShown(page: Page, v: View, k: Key, total: Option<nat>) {
    && (forall e :: e in page.edges ==> e in v.Plain() && v.Shows(e))
    && (k.args.direction != Some(Backward) ==>
          && Ascending(page.edges)
          && (forall e, f :: e in page.edges && f in v.Plain() && v.Shows(f) && f !in page.edges ==> e.key < f.key)
          && |page.edges| == if ShownCount(v) > CutTo(k, total) then CutTo(k, total) else ShownCount(v))
    && (k.args.direction == Some(Backward) ==>
          && Descending(page.edges)
          && (forall e, f :: e in page.edges && f in v.Plain() && v.Shows(f) && f !in page.edges ==> e.key < f.key)
          && |page.edges| == if ShownCount(v) == CutTo(k, total) + 1 then CutTo(k, total) else ShownCount(v))
  }

  ghost predicate Descending(es: seq<Entity>) {
    forall i, j :: 0 <= i < j < |es| ==> es[i].key > es[j].key
  }

  lemma PageTells(k: Key, data: seq<Entity>, total: Option<nat>)
    ensures TellsNeighbours(PageOf(data, PageSize(k), k.args.cursor, GetOr(total, 0), DirectionOf(k)), k, |data|, total)
  {
  }

  lemma PageLists(k: Key, v: View, total: Option<nat>)
    requires v.Valid() && v.n == PageSize(k) + 1
    ensures ListsShown(PageOf(v.Children(), PageSize(k), k.args.cursor, GetOr(total, 0), DirectionOf(k)), v, k, total)
  {
    ViewInOrder(v);
    ShownAreCollected(v);
    ShownWithinPlain(v);
    forall e ensures e in v.Children() <==> v.Shows(e) {
      ShownChildren(v, e);
    }
    PageCuts(k, v.Children(), total);
  }

  // How many of the given children a page holds.
  ghost function CutAt(k: Key, count: nat, total: Option<nat>): (m: nat)
    ensures m <= count
  {
    if (if k.args.direction == Some(Backward) then count == CutTo(k, total) + 1 else count > CutTo(k, total))
    then CutTo(k, total) else count
  }

  lemma EdgesAreCut(k: Key, data: seq<Entity>, total: Option<nat>)
    ensures var edges := PageOf(data, PageSize(k), k.args.cursor, GetOr(total, 0), DirectionOf(k)).edges;
            var cut := data[..CutAt(k, |data|, total)];
            edges == if k.args.direction == Some(Backward) then Reverse(cut) else cut
  {
    CutIsAdjusted(k, total);
    if k.args.direction == Some(Backward) {
      BackwardEdges(data, PageSize(k), k.args.cursor, GetOr(total, 0));
    } else {
      ForwardEdges(data, PageSize(k), k.args.cursor, GetOr(total, 0));
    }
    assert data[..|data|] == data;
  }

  lemma CutIsAdjusted(k: Key, total: Option<nat>)
    ensures CutTo(k, total) == AdjustPageSize(PageSize(k), k.args.cursor, GetOr(total, 0), DirectionOf(k))
    ensures DirectionOf(k) == if k.args.direction == Some(Backward) then Backward else Forward
    ensures DirectionOf(k) == Forward ==> CutTo(k, total) == PageSize(k)
  {
  }

  lemma ForwardEdges(data: seq<Entity>, pageSize: nat, cursor: Cursor, total: nat)
    requires pageSize > 0
    ensures PageOf(data, pageSize, cursor, total, Forward).edges == Take(data, pageSize)
  {
  }

  // The page as a cut of the collected children.
  lemma PageCuts(k: Key, data: seq<Entity>, total: Option<nat>)
    requires Ascending(data)
    ensures IsCut(PageOf(data, PageSize(k), k.args.cursor, GetOr(total, 0), DirectionOf(k)).edges, data,
                  CutAt(k, |data|, total), k.args.direction == Some(Backward))
  {
    EdgesAreCut(k, data, total);
    FirstAreCut(data, CutAt(k, |data|, total));
  }

  // The first m of an ascending list, in order or in reverse.
  ghost predicate IsCut(edges: seq<Entity>, data: seq<Entity>, m: nat, backward: bool) {
    && (forall e :: e in edges ==> e in data)
    && (forall e, f :: e in edges && f in data && f !in edges ==> e.key < f.key)
    && (if backward then Descending(edges) else Ascending(edges)) && |edges| == m
  }

  lemma FirstAreCut(data: seq<Entity>, m: nat)
    requires Ascending(data) && m <= |data|
    ensures IsCut(data[..m], data, m, false) && IsCut(Reverse(data[..m]), data, m, true)
  {
    CutIsBefore(data, m);
    ReverseMembers(data[..m]);
  }

  lemma ReverseMembers(es: seq<Entity>)
    ensures forall e :: e in Reverse(es) <==> e in es
    ensures Ascending(es) ==> Descending(Reverse(es))
  {
    forall e | e in es ensures e in Reverse(es) {
      var i :| 0 <= i < |es| && es[i] == e;
      assert Reverse(es)[|es| - 1 - i] == e;
    }
  }

  lemma CutIsBefore(es: seq<Entity>, m: nat)
    requires Ascending(es) && m <= |es|
    ensures forall e, f :: e in es[..m] && f in es && f !in es[..m] ==> e.key < f.key
  {
    var before, after := es[..m], es[m..];
    assert es == before + after;
    forall e, f | e in before && f in after ensures e.key < f.key {
      var i, j :| 0 <= i < |before| && before[i] == e && 0 <= j < |after| && after[j] == f;
      assert es[i] == e && es[m + j] == f;
    }
  }

  /** In any coherent batch and on any database the page a key is answered with lists what the key is
      shown, cut to its size, and tells whether there is more on either side. */
  lemma {:induction false} AnswerTellsNeighbours(keys: seq<Key>, db: Database, i: nat, r: Response)
    requires i < |keys| && Typed(keys) && Serves(db, keys) && Coherent(keys) && IsAnswer(keys, db, i, r)
    ensures var v := ViewOf(db, keys[i], ParentsOf(keys, keys[i]));
            ListsShown(r.page, v, keys[i], r.totalCount)
            && TellsNeighbours(r.page, keys[i], ShownCount(v), r.totalCount)
  {
    var k := keys[i];
    assert k in keys;
    var v := ViewOf(db, k, ParentsOf(keys, k));
    AnswerInBatch(keys, db, i);
    ViewIsValid(db, k, ParentsOf(keys, k));
    ResponseMeaning(db, k, ParentsOf(keys, k), r);
    ShownAreCollected(v);
    PageTells(k, v.Children(), r.totalCount);
    PageLists(k, v, r.totalCount);
  }

  // Where groups are shown in full, more than the cut are shown exactly when more children remain.
  lemma ShownBeyondCut(v: View, m: nat)
    requires v.Valid() && v.GroupsVisible() && m < v.n
    ensures ShownCount(v) > m <==> |v.Plain()| > m
  {
    ShownAreCollected(v);
    VisibleGroupsShowFirst(v);
    TruncatedGroupsSuffice(v);
    PrefixAgrees(v.Children(), v.Plain(), v.n);
  }

  lemma CutToSize(k: Key, total: Option<nat>)
    ensures 0 < CutTo(k, total) <= PageSize(k)
  {
  }

  /** Where groups are shown in full, as for a key loaded alone or where no group mixes system rows with
      others, it tells whether the plain query has more children past the cursor than it was to hold. */
  lemma {:induction false} AnswerTellsOfPlain(keys: seq<Key>, db: Database, i: nat, r: Response)
    requires i < |keys| && Typed(keys) && Serves(db, keys) && Coherent(keys) && IsAnswer(keys, db, i, r)
    requires ViewOf(db, keys[i], ParentsOf(keys, keys[i])).GroupsVisible()
    ensures TellsNeighbours(r.page, keys[i], |PlainChildren(Seek(db(QueryOf(keys[i])), keys[i].args.cursor),
                                                            keys[i].shared, keys[i].parent)|, r.totalCount)
  {
    var k := keys[i];
    assert k in keys;
    AnswerTellsNeighbours(keys, db, i, r);
    AnswerInBatch(keys, db, i);
    ViewIsValid(db, k, ParentsOf(keys, k));
    CutToSize(k, r.totalCount);
    ShownBeyondCut(ViewOf(db, k, ParentsOf(keys, k)), CutTo(k, r.totalCount));
  }

  // ----- where groups are shown in full

  // The rank of a row among all the rows parent p is shown, whatever their groups.
  function UnionRank(rows: seq<Row>, shared: bool, p: ParentId, r: Row): nat {
    |set x | x in rows && VisibleTo(x, p, shared) && x.child.key <= r.child.key :: x.child.key|
  }

  // No group shows p a child among its first n that is not among the first n of all.
  ghost predicate GroupsKeepToFirst(rows: seq<Row>, shared: bool, p: ParentId, n: nat) {
    forall r :: r in rows && VisibleTo(r, p, shared) && VisibleRank(rows, shared, p, r) <= n
                ==> UnionRank(rows, shared, p, r) <= n
  }

  // All the rows parent p is shown are of one group.
  ghost predicate OneGroup(rows: seq<Row>, shared: bool, p: ParentId) {
    forall r, s :: r in rows && s in rows && VisibleTo(r, p, shared) && VisibleTo(s, p, shared) ==> r.pivot == s.pivot
  }

  lemma UnionRankBound(rows: seq<Row>, shared: bool, p: ParentId, r: Row, all: seq<Entity>, i: nat)
    requires Ascending(all) && i < |all| && all[i] == r.child
    requires forall x :: x in rows && VisibleTo(x, p, shared) ==> x.child in all
    ensures UnionRank(rows, shared, p, r) <= i + 1
  {
    var ranked := set x | x in rows && VisibleTo(x, p, shared) && x.child.key <= r.child.key :: x.child.key;
    var prefix := all[..i + 1];
    forall x | x in rows && VisibleTo(x, p, shared) && x.child.key <= r.child.key ensures x.child.key in Keys(prefix) {
      var j :| 0 <= j < |all| && all[j] == x.child;
      assert prefix[j] == x.child;
    }
    SubsetCardinality(ranked, Keys(prefix));
    KeyCount(prefix);
  }

  lemma UnionRankAtLeast(rows: seq<Row>, shared: bool, p: ParentId, r: Row, es: seq<Entity>)
    requires Ascending(es) && es != [] && es[|es| - 1] == r.child
    requires forall e :: e in es ==> exists x :: x in rows && VisibleTo(x, p, shared) && x.child == e
    ensures UnionRank(rows, shared, p, r) >= |es|
  {
    var ranked := set x | x in rows && VisibleTo(x, p, shared) && x.child.key <= r.child.key :: x.child.key;
    forall e | e in es ensures e.key in ranked {
      assert e.key <= r.child.key;
      var x :| x in rows && VisibleTo(x, p, shared) && x.child == e;
    }
    SubsetCardinality(Keys(es), ranked);
    KeyCount(es);
  }

  lemma UnionRankIsPosition(rows: seq<Row>, shared: bool, p: ParentId, r: Row, i: nat)
    requires WellFormed(rows) && i < |PlainChildren(rows, shared, p)| && PlainChildren(rows, shared, p)[i] == r.child
    ensures UnionRank(rows, shared, p, r) == i + 1
  {
    var all := PlainChildren(rows, shared, p);
    PlainMeaning(rows, shared, p);
    UnionRankBound(rows, shared, p, r, all, i);
    var prefix := all[..i + 1];
    forall e | e in prefix ensures exists x :: x in rows && VisibleTo(x, p, shared) && x.child == e {
      assert e in all;
    }
    UnionRankAtLeast(rows, shared, p, r, prefix);
  }

  /** Where the groups a parent is shown rows of are shown to it in full, as when it is loaded alone, it
      is shown a child beyond the first n exactly when some group does not keep to the first n. */
  lemma {:induction false} ShownBeyondExactly(v: View)
    requires v.Valid() && v.GroupsVisible()
    ensures v.ShowsBeyond(v.n) <==> !GroupsKeepToFirst(v.Past(), v.shared, v.p, v.n)
  {
    ViewInOrder(v);
    PlainMeaning(v.Past(), v.shared, v.p);
    if j: nat :| v.n <= j && v.ShowsAt(j) {
      VisibleGroupsShow(v, v.Plain()[j]);
      var r :| r in v.Past() && VisibleTo(r, v.p, v.shared) && r.child == v.Plain()[j]
               && VisibleRank(v.Past(), v.shared, v.p, r) <= v.n;
      UnionRankIsPosition(v.Past(), v.shared, v.p, r, j);
    } else {
      forall r | r in v.Past() && VisibleTo(r, v.p, v.shared) && VisibleRank(v.Past(), v.shared, v.p, r) <= v.n
        ensures UnionRank(v.Past(), v.shared, v.p, r) <= v.n
      {
        assert r.child in v.Plain();
        var j :| 0 <= j < |v.Plain()| && v.Plain()[j] == r.child;
        UnionRankIsPosition(v.Past(), v.shared, v.p, r, j);
        VisibleGroupsShow(v, r.child);
        assert v.ShowsAt(j);
      }
    }
  }

  /** There a request collects no more than n children exactly when groups keep to the first n. */
  lemma {:induction false} CollectedFits(v: View)
    requires v.Valid() && v.GroupsVisible()
    ensures |v.Children()| <= v.n <==> GroupsKeepToFirst(v.Past(), v.shared, v.p, v.n)
  {
    ShownBeyondExactly(v);
    VisibleGroupsShowFirst(v);
    ShownByPosition(v, v.n);
    HoldsBeyondMeansLonger(v.Children(), v.Plain(), v.n);
  }

  /** And there a page is the plain one exactly when it goes forward or groups keep to the cut. */
  lemma PlainWhereVisible(v: View, direction: Direction, full: bool)
    requires v.Valid() && v.GroupsVisible() && v.n > 0
    ensures ShowsPlainPage(v, direction, full)
            <==> direction == Forward || GroupsKeepToFirst(v.Past(), v.shared, v.p, v.n)
  {
    VisibleGroupsShowFirst(v);
    ShownBeyondExactly(v);
    if |v.Plain()| > v.n - 1 {
      assert v.ShowsAt(v.n - 1);
    }
  }

  // Each system entity sits in one pivot group.
  ghost predicate SystemOnce(rows: seq<Row>) {
    forall r, s :: r in rows && s in rows && r.child.system && s.child.system && r.child.id == s.child.id
                   ==> r.pivot == s.pivot
  }

  lemma OneGroupKeepsToFirst(rows: seq<Row>, shared: bool, p: ParentId, n: nat)
    requires OneGroup(rows, shared, p)
    ensures GroupsKeepToFirst(rows, shared, p, n)
  {
    forall r | r in rows && VisibleTo(r, p, shared)
      ensures UnionRank(rows, shared, p, r) <= VisibleRank(rows, shared, p, r)
    {
      SubsetCardinality(
        set x | x in rows && VisibleTo(x, p, shared) && x.child.key <= r.child.key :: x.child.key,
        set x | x in rows && VisibleTo(x, p, shared) && x.pivot == r.pivot && x.child.key <= r.child.key
              :: x.child.key);
    }
  }

  lemma {:induction false} FewKeepToFirst(rows: seq<Row>, shared: bool, p: ParentId, n: nat)
    requires WellFormed(rows) && |PlainChildren(rows, shared, p)| <= n
    ensures GroupsKeepToFirst(rows, shared, p, n)
  {
    PlainMeaning(rows, shared, p);
    forall r | r in rows && VisibleTo(r, p, shared) ensures UnionRank(rows, shared, p, r) <= n {
      assert r.child in PlainChildren(rows, shared, p);
      var i :| 0 <= i < |PlainChildren(rows, shared, p)| && PlainChildren(rows, shared, p)[i] == r.child;
      UnionRankIsPosition(rows, shared, p, r, i);
    }
  }

  // A child is shown to a parent from one group only.
  lemma OneGroupPerChild(rows: seq<Row>, p: ParentId, r: Row, s: Row)
    requires Consistent(rows) && SystemOnce(rows)
    requires r in rows && s in rows && VisibleTo(r, p, true) && VisibleTo(s, p, true) && r.child == s.child
    ensures r.pivot == s.pivot
  {
  }

  // The least child a group shows has rank 1 in it.
  lemma LeastOfGroup(rows: seq<Row>, shared: bool, p: ParentId, s: Row) returns (r: Row)
    requires s in rows && VisibleTo(s, p, shared)
    ensures r in rows && VisibleTo(r, p, shared) && r.pivot == s.pivot && VisibleRank(rows, shared, p, r) == 1
  {
    r := s;
    while exists x :: x in rows && VisibleTo(x, p, shared) && x.pivot == s.pivot && x.child.key < r.child.key
      invariant r in rows && VisibleTo(r, p, shared) && r.pivot == s.pivot
      decreases VisibleRank(rows, shared, p, r)
    {
      var x :| x in rows && VisibleTo(x, p, shared) && x.pivot == s.pivot && x.child.key < r.child.key;
      RankGrows(rows, shared, p, x, r);
      r := x;
    }
    assert (set x | x in rows && VisibleTo(x, p, shared) && x.pivot == r.pivot && x.child.key <= r.child.key
              :: x.child.key) == {r.child.key};
  }

  lemma RankGrows(rows: seq<Row>, shared: bool, p: ParentId, x: Row, r: Row)
    requires x in rows && r in rows && VisibleTo(x, p, shared) && VisibleTo(r, p, shared)
    requires x.pivot == r.pivot && x.child.key < r.child.key
    ensures VisibleRank(rows, shared, p, x) < VisibleRank(rows, shared, p, r)
  {
    var below := set y | y in rows && VisibleTo(y, p, shared) && y.pivot == x.pivot && y.child.key <= x.child.key
                       :: y.child.key;
    var upTo := set y | y in rows && VisibleTo(y, p, shared) && y.pivot == r.pivot && y.child.key <= r.child.key
                      :: y.child.key;
    assert r.child.key in upTo && r.child.key !in below;
    SubsetCardinality(below, upTo);
  }

  // A row before r of another group makes r's rank in its group less than that among all.
  lemma RankWithoutOther(rows: seq<Row>, p: ParentId, r: Row, other: Row)
    requires Consistent(rows) && SystemOnce(rows)
    requires other in rows && VisibleTo(other, p, true) && other.pivot != r.pivot && other.child.key < r.child.key
    ensures VisibleRank(rows, true, p, r) < UnionRank(rows, true, p, r)
  {
    var ranked := set x | x in rows && VisibleTo(x, p, true) && x.pivot == r.pivot && x.child.key <= r.child.key
                        :: x.child.key;
    var union := set x | x in rows && VisibleTo(x, p, true) && x.child.key <= r.child.key :: x.child.key;
    forall x | x in rows && VisibleTo(x, p, true) && x.pivot == r.pivot ensures x.child.key != other.child.key {
      KeysOfGroupsDiffer(rows, p, x, other);
    }
    assert other.child.key in union && other.child.key !in ranked;
    SubsetCardinality(ranked, union);
  }

  lemma KeysOfGroupsDiffer(rows: seq<Row>, p: ParentId, r: Row, s: Row)
    requires Consistent(rows) && SystemOnce(rows)
    requires r in rows && s in rows && VisibleTo(r, p, true) && VisibleTo(s, p, true) && r.pivot != s.pivot
    ensures r.child.key != s.child.key
  {
    if r.child.key == s.child.key {
      OneGroupPerChild(rows, p, r, s);
    }
  }

  lemma {:induction false} ManyInTwoGroupsDoNotKeep(rows: seq<Row>, p: ParentId, n: nat, r: Row, other: Row)
    requires WellFormed(rows) && SystemOnce(rows) && n > 0
    requires n < |PlainChildren(rows, true, p)| && PlainChildren(rows, true, p)[n] == r.child
    requires r in rows && VisibleTo(r, p, true)
    requires other in rows && VisibleTo(other, p, true) && other.pivot != r.pivot
    requires VisibleRank(rows, true, p, other) == 1
    ensures !GroupsKeepToFirst(rows, true, p, n)
  {
    var all := PlainChildren(rows, true, p);
    PlainMeaning(rows, true, p);
    UnionRankIsPosition(rows, true, p, r, n);
    if other.child.key < r.child.key {
      RankWithoutOther(rows, p, r, other);
    } else {
      assert other.child in all;
      var i :| 0 <= i < |all| && all[i] == other.child;
      UnionRankIsPosition(rows, true, p, other, i);
    }
  }

  /** Where each system entity sits in one group, groups keep to the first n exactly when at most n
      children are shown or all that is shown is of one group. */
  lemma {:induction false} KeepsToFirstExactly(rows: seq<Row>, shared: bool, p: ParentId, n: nat)
    requires WellFormed(rows) && n > 0 && (shared ==> SystemOnce(rows))
    ensures GroupsKeepToFirst(rows, shared, p, n)
            <==> |PlainChildren(rows, shared, p)| <= n || OneGroup(rows, shared, p)
  {
    if OneGroup(rows, shared, p) {
      OneGroupKeepsToFirst(rows, shared, p, n);
    } else if |PlainChildren(rows, shared, p)| <= n {
      FewKeepToFirst(rows, shared, p, n);
    } else {
      PlainMeaning(rows, shared, p);
      assert PlainChildren(rows, shared, p)[n] in PlainChildren(rows, shared, p);
      var r :| r in rows && VisibleTo(r, p, shared) && r.child == PlainChildren(rows, shared, p)[n];
      var s :| s in rows && VisibleTo(s, p, shared) && s.pivot != r.pivot;
      var other := LeastOfGroup(rows, shared, p, s);
      ManyInTwoGroupsDoNotKeep(rows, p, n, r, other);
    }
  }

  // Without system entities a request never collects more than it seeks.
  lemma OwnChildrenFit(v: View)
    requires v.Valid() && !v.shared
    ensures |v.Children()| <= v.n
  {
    NothingMixesUnshared(v);
    OneGroupKeepsToFirst(v.Past(), false, v.p, v.n);
    CollectedFits(v);
  }

  /** Loaded alone, whatever the groups hold, a key gets the page of the plain query exactly when it
      goes forward or groups keep to the cut; where each system entity sits in one group, when it goes
      forward, or has no more children left than the cut, or has them left in one group. */
  lemma {:induction false} AloneIsPlainPage(k: Key, db: Database, r: Response)
    requires Typed([k]) && Serves(db, [k]) && IsAnswer([k], db, 0, r)
    ensures var past := Seek(db(QueryOf(k)), k.args.cursor);
            && (r.page == PlainPage(db, k, r.totalCount)
                <==> DirectionOf(k) == Forward || GroupsKeepToFirst(past, k.shared, k.parent, PageSize(k) + 1))
            && ((k.shared ==> SystemOnce(past)) ==>
                  (r.page == PlainPage(db, k, r.totalCount)
                   <==> || DirectionOf(k) == Forward
                        || |PlainChildren(past, k.shared, k.parent)| <= PageSize(k) + 1
                        || OneGroup(past, k.shared, k.parent)))
  {
    var v := ViewOf(db, k, [k.parent]);
    ViewIsValid(db, k, [k.parent]);
    AloneGroupsVisible(v);
    ViewInOrder(v);
    AloneAnswer(k, db);
    ResponseMeaning(db, k, [k.parent], r);
    PageIsPlain(db, k, [k.parent], r.totalCount);
    PlainWhereVisible(v, DirectionOf(k), FullPage(k, r.totalCount));
    if k.shared ==> SystemOnce(v.Past()) {
      KeepsToFirstExactly(v.Past(), k.shared, k.parent, PageSize(k) + 1);
    }
  }

  // ----- an overflowing page

  ghost predicate TwoOwnTwoSystem(rows: seq<Row>) {
    && |rows| == 4
    && rows[0] == Row(["org"], Entity("1", 1, false)) && rows[1] == Row(["org"], Entity("22", 2, false))
    && rows[2] == Row(["none"], Entity("333", 3, true)) && rows[3] == Row(["none"], Entity("4444", 4, true))
  }

  // Row i of such a relation has order i + 1, and an id and a parent told apart by their lengths.
  lemma TwoOwnTwoSystemRow(rows: seq<Row>, i: nat)
    requires TwoOwnTwoSystem(rows) && i < 4
    ensures |rows[i].child.id| == i + 1 && rows[i].child.key == i + 1 && rows[i].child.system == (i >= 2)
    ensures |rows[i].pivot| == 1 && |rows[i].pivot[0]| == if i < 2 then 3 else 4
  {
  }

  lemma TwoOwnTwoSystemIsServed(rows: seq<Row>)
    requires TwoOwnTwoSystem(rows)
    ensures WellFormed(rows) && SystemGroupsPure(rows)
  {
    forall i | 0 <= i < 4
      ensures |rows[i].child.id| == i + 1 && rows[i].child.key == i + 1 && rows[i].child.system == (i >= 2)
      ensures |rows[i].pivot| == 1 && |rows[i].pivot[0]| == if i < 2 then 3 else 4
    {
      TwoOwnTwoSystemRow(rows, i);
    }
    ToldApart(rows);
  }

  lemma ToldApart(rows: seq<Row>)
    requires |rows| == 4
    requires forall i :: 0 <= i < 4 ==> |rows[i].child.id| == i + 1 && rows[i].child.key == i + 1
    requires forall i :: 0 <= i < 4 ==> rows[i].child.system == (i >= 2)
    requires forall i :: 0 <= i < 4 ==> |rows[i].pivot| == 1 && |rows[i].pivot[0]| == if i < 2 then 3 else 4
    ensures WellFormed(rows) && SystemGroupsPure(rows)
  {
    forall r, s | r in rows && s in rows && (r.child.id == s.child.id || r.child.key == s.child.key)
      ensures r.child == s.child
    {
      var i, j :| 0 <= i < 4 && 0 <= j < 4 && rows[i] == r && rows[j] == s;
      assert i == j;
    }
    forall r, s | r in rows && s in rows && r.pivot == s.pivot ensures r.child.system == s.child.system {
      var i, j :| 0 <= i < 4 && 0 <= j < 4 && rows[i] == r && rows[j] == s;
      assert |rows[i].pivot[0]| == |rows[j].pivot[0]|;
    }
  }

  lemma TwoOwnTwoSystemGroups(rows: seq<Row>)
    requires TwoOwnTwoSystem(rows)
    ensures Row(["org"], Entity("1", 1, false)) in rows && Row(["org"], Entity("22", 2, false)) in rows
    ensures Row(["none"], Entity("333", 3, true)) in rows && Row(["none"], Entity("4444", 4, true)) in rows
    ensures forall r :: r in rows && r.pivot == ["org"] ==>
              r.child == Entity("1", 1, false) || r.child == Entity("22", 2, false)
    ensures forall r :: r in rows && r.pivot == ["none"] ==>
              r.child == Entity("333", 3, true) || r.child == Entity("4444", 4, true)
  {
    assert |["org"][0]| == 3 && |["none"][0]| == 4;
  }

  // The first system child has rank 1 in its group, and two own children come before it.
  lemma SystemChildBeyondCut(rows: seq<Row>)
    requires TwoOwnTwoSystem(rows)
    ensures WellFormed(rows) && !GroupsKeepToFirst(Seek(rows, After(0)), true, ["org"], 2)
  {
    var a, b := Entity("1", 1, false), Entity("22", 2, false);
    var first, second := Entity("333", 3, true), Entity("4444", 4, true);
    var past, r := Seek(rows, After(0)), Row(["none"], first);
    TwoOwnTwoSystemIsServed(rows);
    TwoOwnTwoSystemGroups(rows);
    forall x ensures x in past <==> x in rows && x.child.key > 0 { SeekMembers(rows, After(0), x); }
    RankBound(past, r, [first, second], 0);
    SubsetCardinality(
      set x | x in past && VisibleTo(x, ["org"], true) && x.pivot == r.pivot && x.child.key <= r.child.key
            :: x.child.key,
      set x | x in past && x.pivot == r.pivot && x.child.key <= r.child.key :: x.child.key);
    assert VisibleTo(Row(["org"], a), ["org"], true) && VisibleTo(Row(["org"], b), ["org"], true);
    UnionRankAtLeast(past, true, ["org"], r, [a, b, first]);
  }

  // Where groups are shown in full, a page backwards that is not the plain one is longer than its size.
  lemma UncutPageOverflows(db: Database, k: Key, parents: seq<ParentId>, total: Option<nat>)
    requires ViewOf(db, k, parents).Valid() && ViewOf(db, k, parents).GroupsVisible() && DirectionOf(k) == Backward
    requires !GroupsKeepToFirst(Seek(db(QueryOf(k)), k.args.cursor), k.shared, k.parent, PageSize(k) + 1)
    ensures |PageWith(db, k, parents, total).edges| > PageSize(k)
  {
    CollectedFits(ViewOf(db, k, parents));
    BackwardPageSize(ViewOf(db, k, parents).Children(), PageSize(k), k.args.cursor, GetOr(total, 0));
  }

  /** Going backwards, system children can push a page past its size: two own and two system
      children come back as a page of more than one edge for a page size of one. */
  lemma BackwardSharedPageOverflows(k: Key, db: Database)
    requires k.parent == ["org"] && |k.pivots| == 1 && k.shared
    requires k.args.direction == Some(Backward) && k.args.count == Some(1) && k.args.cursor == After(0)
    requires TwoOwnTwoSystem(db(QueryOf(k)))
    ensures Serves(db, [k]) && |Answer([k], db, 0).page.edges| > PageSize(k)
  {
    TwoOwnTwoSystemView(ViewOf(db, k, [k.parent]));
    AloneEdges(db, k);
    UncutPageOverflows(db, k, [k.parent], Answer([k], db, 0).totalCount);
  }

  lemma AloneEdges(db: Database, k: Key)
    ensures Answer([k], db, 0).page == PageWith(db, k, [k.parent], Answer([k], db, 0).totalCount)
  {
    AloneAnswer(k, db);
  }

  lemma TwoOwnTwoSystemView(v: View)
    requires TwoOwnTwoSystem(v.rows) && v.p == ["org"] && v.parents == [["org"]]
    requires v.shared && v.cursor == After(0) && v.n == 2
    ensures v.Valid() && v.GroupsVisible() && !GroupsKeepToFirst(v.Past(), true, ["org"], 2)
    ensures forall r :: r in v.rows ==> |r.pivot| == 1
  {
    SystemChildBeyondCut(v.rows);
    TwoOwnTwoSystemWidth(v.rows);
    assert v.Alone() == v;
    AloneGroupsVisible(v);
  }

  lemma TwoOwnTwoSystemWidth(rows: seq<Row>)
    requires TwoOwnTwoSystem(rows)
    ensures forall r :: r in rows ==> |r.pivot| == 1
  {
    forall i | 0 <= i < 4 ensures |rows[i].pivot| == 1 {
      TwoOwnTwoSystemRow(rows, i);
    }
  }

  // ----- the first page backwards

  // The last page of offset paging over children listed last first: from the last multiple of the
  // page size that leaves any child, in order.
  function LastOffsetPage(all: seq<Entity>, pageSize: nat): seq<Entity>
    requires pageSize > 0
  {
    if all == [] then [] else Reverse(all)[(|all| - 1) / pageSize * pageSize..]
  }

  lemma {:induction false} OffsetOfLastPage(t: nat, m: nat)
    requires t > 0 && m > 0
    ensures (t - 1) / m * m == t - if t % m != 0 then t % m else m
  {
    var q, r := t / m, t % m;
    assert t == q * m + r;
    if r != 0 {
      DivisionIs(t - 1, m, q, r - 1);
    } else {
      assert (q - 1) * m == q * m - m;
      DivisionIs(t - 1, m, q - 1, m - 1);
    }
  }

  lemma DivisionIs(t: nat, m: nat, q: int, r: nat)
    requires m > 0 && t == q * m + r && r < m
    ensures t / m == q
  {
    var d := t / m - q;
    assert t / m * m + t % m == t;
    assert d * m == r - t % m;
    assert d > 0 ==> d * m >= m;
    assert d < 0 ==> d * m + m <= 0;
  }

  // It holds the remainder, or a whole page when the children fill their pages.
  lemma LastOffsetPageIs(all: seq<Entity>, pageSize: nat, last: nat)
    requires pageSize > 0 && all != [] && last == if |all| % pageSize != 0 then |all| % pageSize else pageSize
    ensures last <= |all| && last <= pageSize
    ensures LastOffsetPage(all, pageSize) == Reverse(all)[|all| - last..]
  {
    OffsetOfLastPage(|all|, pageSize);
    if |all| < pageSize {
      SmallModulus(|all|, pageSize);
    }
  }

  function LastCount(t: nat, m: nat): (last: nat)
    requires m > 0
    ensures last <= m && last <= t
  {
    if t == 0 then 0
    else if t % m != 0 then t % m
    else
      MultipleIsNoLess(t, m);
      m
  }

  lemma MultipleIsNoLess(t: nat, m: nat)
    requires t > 0 && m > 0 && t % m == 0
    ensures t >= m
  {
    if t < m {
      SmallModulus(t, m);
    }
  }

  lemma LastOffsetPageIsFirst(all: seq<Entity>, pageSize: nat)
    requires pageSize > 0
    ensures LastOffsetPage(all, pageSize) == Reverse(Take(all, LastCount(|all|, pageSize)))
  {
    if all != [] {
      var last := LastCount(|all|, pageSize);
      LastOffsetPageIs(all, pageSize, last);
      assert Reverse(all)[|all| - last..] == Reverse(all[..last]);
    }
  }

  // Which children a list holds when its first page backwards is the last page of offset paging, for a
  // page cut to the adjusted size.
  ghost predicate HoldsLastPage(data: seq<Entity>, all: seq<Entity>, last: nat, adjusted: nat) {
    || (HoldsFirst(data, all, last) && !HoldsBeyond(data, all, last) && last != adjusted + 1)
    || (adjusted == last && HoldsFirst(data, all, last) && HoldsOneBeyond(data, all, last))
  }

  lemma CutIsLastPage(data: seq<Entity>, all: seq<Entity>, last: nat, adjusted: nat)
    requires Within(data, all) && last <= |all|
    ensures (if |data| == adjusted + 1 then data[..adjusted] else data) == Take(all, last)
            <==> HoldsLastPage(data, all, last, adjusted)
  {
    PrefixMeansFirstOnly(data, all, last);
    HoldsFirstMeansSamePrefix(data, all, last);
    if HoldsFirst(data, all, last) {
      HoldsOneBeyondMeansOneLonger(data, all, last);
    }
    if |data| == adjusted + 1 && data[..adjusted] == Take(all, last) {
      assert |data[..adjusted]| == last;
    }
  }

  /** For whatever total, a list within all children gives the last page of offset paging as its first
      page backwards exactly when it holds the children of that page, and nothing, or one child, more. */
  lemma EdgesAreLastPage(data: seq<Entity>, all: seq<Entity>, pageSize: nat, total: nat)
    requires pageSize > 0 && Within(data, all)
    ensures PageOf(data, pageSize, Start, total, Backward).edges == LastOffsetPage(all, pageSize)
            <==> HoldsLastPage(data, all, LastCount(|all|, pageSize), AdjustPageSize(pageSize, Start, total, Backward))
  {
    var last, adjusted := LastCount(|all|, pageSize), AdjustPageSize(pageSize, Start, total, Backward);
    var cut := if |data| == adjusted + 1 then data[..adjusted] else data;
    BackwardEdges(data, pageSize, Start, total);
    LastOffsetPageIsFirst(all, pageSize);
    CutIsLastPage(data, all, last, adjusted);
    if Reverse(cut) == Reverse(Take(all, last)) {
      ReverseDetermines(cut, Take(all, last));
    }
  }

  // What a request shows a parent when its first page backwards is the last page of offset paging.
  ghost predicate ShowsLastPage(v: View, last: nat, adjusted: nat) {
    || (v.ShowsFirst(last) && !v.ShowsBeyond(last) && last != adjusted + 1)
    || (adjusted == last && v.ShowsFirst(last) && v.ShowsOneBeyond(last))
  }

  function FirstAdjusted(k: Key, total: Option<nat>): nat {
    AdjustPageSize(PageSize(k), Start, GetOr(total, 0), Backward)
  }

  /** The first page backwards of a key is meant to be the last page of offset paging over all of its
      children. In any coherent batch and with any total, it is exactly when the key is shown the children of that
      page, and nothing else, or one child more for the page to be cut by. */
  lemma {:induction false} FirstPageBackwards(keys: seq<Key>, db: Database, i: nat, r: Response)
    requires i < |keys| && Typed(keys) && Serves(db, keys) && Coherent(keys) && IsAnswer(keys, db, i, r)
    requires DirectionOf(keys[i]) == Backward && keys[i].args.cursor == Start
    ensures var k := keys[i];
            var all := PlainChildren(db(QueryOf(k)), k.shared, k.parent);
            r.page.edges == LastOffsetPage(all, PageSize(k))
            <==> ShowsLastPage(ViewOf(db, k, ParentsOf(keys, k)), LastCount(|all|, PageSize(k)),
                               FirstAdjusted(k, r.totalCount))
  {
    var k := keys[i];
    assert k in keys;
    AnswerInBatch(keys, db, i);
    ViewIsValid(db, k, ParentsOf(keys, k));
    ResponseMeaning(db, k, ParentsOf(keys, k), r);
    FirstPageOfView(db, k, ParentsOf(keys, k), r.totalCount);
  }

  lemma FirstPageOfView(db: Database, k: Key, parents: seq<ParentId>, total: Option<nat>)
    requires ViewOf(db, k, parents).Valid() && DirectionOf(k) == Backward && k.args.cursor == Start
    ensures ViewOf(db, k, parents).Plain() == PlainChildren(db(QueryOf(k)), k.shared, k.parent)
    ensures var all := ViewOf(db, k, parents).Plain();
            PageWith(db, k, parents, total).edges == LastOffsetPage(all, PageSize(k))
            <==> ShowsLastPage(ViewOf(db, k, parents), LastCount(|all|, PageSize(k)), FirstAdjusted(k, total))
  {
    var v := ViewOf(db, k, parents);
    var last := LastCount(|v.Plain()|, PageSize(k));
    SeekFromStart(v.rows);
    ShownByPosition(v, last);
    EdgesAreLastPage(v.Children(), v.Plain(), PageSize(k), GetOr(total, 0));
  }

  lemma SmallModulus(t: nat, m: nat)
    requires t <= m && m > 0
    ensures t % m == if t == m then 0 else t
  {
  }

  lemma AdjustedIsLast(t: nat, m: nat)
    requires m > 0
    ensures t > 0 ==> AdjustPageSize(m, Start, t, Backward) == LastCount(t, m)
    ensures t <= m ==> LastCount(t, m) == t
    ensures t > m && t % m != 0 ==> LastCount(t, m) < m
  {
    if t <= m {
      SmallModulus(t, m);
    }
  }

  // With an exact total, where groups are shown in full.
  lemma ExactLastPage(v: View, size: nat)
    requires v.Valid() && v.GroupsVisible() && v.n == size + 1 && size > 0
    ensures ShowsLastPage(v, LastCount(|v.Plain()|, size), AdjustPageSize(size, Start, |v.Plain()|, Backward))
            <==> || |v.Plain()| <= size
                 || (|v.Plain()| % size == 0 && GroupsKeepToFirst(v.Past(), v.shared, v.p, size + 1))
  {
    var t := |v.Plain()|;
    var last := LastCount(t, size);
    AdjustedIsLast(t, size);
    VisibleGroupsShowFirst(v);
    ShownBeyondExactly(v);
    assert v.ShowsFirst(last);
    if t > size {
      assert v.ShowsAt(last) && v.ShowsAt(size);
      if last < size {
        assert !v.ShowsOneBeyond(last);
      }
    }
  }

  function FirstEdges(v: View, size: nat, total: nat): seq<Entity>
    requires size > 0
  {
    PageOf(v.Children(), size, Start, total, Backward).edges
  }

  lemma FirstEdgesExactly(v: View, size: nat)
    requires v.Valid() && v.GroupsVisible() && v.n == size + 1 && size > 0
    ensures FirstEdges(v, size, |v.Plain()|) == LastOffsetPage(v.Plain(), size)
            <==> || |v.Plain()| <= size
                 || (|v.Plain()| % size == 0 && GroupsKeepToFirst(v.Past(), v.shared, v.p, size + 1))
  {
    ShownByPosition(v, LastCount(|v.Plain()|, size));
    EdgesAreLastPage(v.Children(), v.Plain(), size, |v.Plain()|);
    ExactLastPage(v, size);
  }

  lemma FirstEdgesFit(v: View, size: nat)
    requires v.Valid() && v.GroupsVisible() && v.n == size + 1 && size > 0
    ensures FirstEdges(v, size, |v.Plain()|) == LastOffsetPage(v.Plain(), size)
            <==> |FirstEdges(v, size, |v.Plain()|)| <= size
  {
    FirstEdgesExactly(v, size);
    LastOffsetPageIsFirst(v.Plain(), size);
    if FirstEdges(v, size, |v.Plain()|) != LastOffsetPage(v.Plain(), size) {
      LongerThanPage(v, size);
    }
  }

  /** Where groups are shown in full, as when the key is loaded alone, and its total is exact, the first
      page backwards is the last page of offset paging exactly when the children fit one page, or fill
      their pages and groups keep to the cut; otherwise it is longer than a page. */
  lemma {:induction false} FirstPageBackwardsExactly(db: Database, k: Key, parents: seq<ParentId>)
    requires ViewOf(db, k, parents).Valid() && ViewOf(db, k, parents).GroupsVisible()
    requires DirectionOf(k) == Backward && k.args.cursor == Start
    ensures var all := PlainChildren(db(QueryOf(k)), k.shared, k.parent);
            var edges := PageWith(db, k, parents, Some(|all|)).edges;
            && (edges == LastOffsetPage(all, PageSize(k))
                <==> || |all| <= PageSize(k)
                     || (|all| % PageSize(k) == 0
                         && GroupsKeepToFirst(db(QueryOf(k)), k.shared, k.parent, PageSize(k) + 1)))
            && (edges == LastOffsetPage(all, PageSize(k)) <==> |edges| <= PageSize(k))
  {
    var v := ViewOf(db, k, parents);
    SeekFromStart(v.rows);
    assert PageWith(db, k, parents, Some(|v.Plain()|)).edges == FirstEdges(v, PageSize(k), |v.Plain()|);
    FirstEdgesExactly(v, PageSize(k));
    FirstEdgesFit(v, PageSize(k));
  }

  lemma LongerThanPage(v: View, size: nat)
    requires v.Valid() && v.GroupsVisible() && v.n == size + 1 && 0 < size < |v.Plain()|
    requires |v.Plain()| % size != 0 || !GroupsKeepToFirst(v.Past(), v.shared, v.p, size + 1)
    ensures |PageOf(v.Children(), size, Start, |v.Plain()|, Backward).edges| > size
  {
    AdjustedIsLast(|v.Plain()|, size);
    VisibleGroupsShowFirst(v);
    TruncatedGroupsSuffice(v);
    PrefixAgrees(v.Children(), v.Plain(), v.n);
    CollectedFits(v);
    BackwardEdges(v.Children(), size, Start, |v.Plain()|);
  }

  // ----- totals

  lemma {:induction false} DistinctCount(es: seq<Entity>)
    ensures |Distinct(es)| == |set e | e in es :: e.id|
    ensures forall id :: HasId(Distinct(es), id) <==> HasId(es, id)
  {
    if es != [] {
      var init, last := es[..|es| - 1], es[|es| - 1];
      assert es == init + [last];
      DistinctCount(init);
      var ids := set e | e in init :: e.id;
      assert (set e | e in es :: e.id) == ids + {last.id};
      assert last.id in ids <==> HasId(Distinct(init), last.id);
      assert forall id :: HasId(es, id) <==> HasId(init, id) || id == last.id;
      var rest := Distinct(init);
      assert forall id :: HasId(rest + [last], id) <==> HasId(rest, id) || id == last.id;
    }
  }

  ghost predicate OwnsSystem(rows: seq<Row>, p: ParentId) {
    exists r :: r in rows && r.pivot == p && r.child.system
  }

  function Seconds(pairs: set<(ParentId, string)>): set<string> {
    set x | x in pairs :: x.1
  }

  ghost predicate OneFirst(pairs: set<(ParentId, string)>) {
    forall x, y :: x in pairs && y in pairs && x.1 == y.1 ==> x == y
  }

  lemma {:induction false} SecondsCount(pairs: set<(ParentId, string)>)
    ensures |Seconds(pairs)| <= |pairs|
    ensures |Seconds(pairs)| == |pairs| <==> OneFirst(pairs)
  {
    if pairs == {} {
      assert Seconds(pairs) == {};
    } else {
      var x :| x in pairs;
      var rest := pairs - {x};
      SecondsCount(rest);
      assert Seconds(pairs) == Seconds(rest) + {x.1};
      if x.1 in Seconds(rest) {
        assert Seconds(pairs) == Seconds(rest);
        var y :| y in rest && y.1 == x.1;
        assert !OneFirst(pairs);
      } else {
        assert OneFirst(pairs) <==> OneFirst(rest);
      }
    }
  }

  function SystemIds(rows: seq<Row>): set<string> {
    set r | r in rows && r.child.system :: r.child.id
  }

  lemma UnionCount(a: set<string>, b: set<string>)
    ensures |a + b| <= |a| + |b|
    ensures |a + b| == |a| + |b| <==> a !! b
  {
    assert a + b == a + (b - a);
    SubsetCardinality(b - a, b);
  }

  lemma PlainCount(rows: seq<Row>, shared: bool, p: ParentId)
    ensures |PlainChildren(rows, shared, p)| == |OwnIds(rows, p) + if shared then SystemIds(rows) else {}|
  {
    var es := Visible(rows, p, shared);
    DistinctCount(es);
    var ids, plain := set e | e in es :: e.id, OwnIds(rows, p) + if shared then SystemIds(rows) else {};
    forall e | e in es ensures e.id in plain {
      VisibleMembers(rows, p, shared, e);
    }
    forall r | r in rows && VisibleTo(r, p, shared) ensures r.child.id in ids {
      VisibleMembers(rows, p, shared, r.child);
    }
    assert ids == plain;
  }

  lemma SystemCounts(rows: seq<Row>)
    ensures |SystemPairs(rows)| >= |SystemIds(rows)|
    ensures |SystemPairs(rows)| == |SystemIds(rows)| <==> SystemOnce(rows)
  {
    var system, pairs := SystemIds(rows), SystemPairs(rows);
    SecondsCount(pairs);
    assert Seconds(pairs) == system by {
      forall id | id in system ensures id in Seconds(pairs) {
        var r :| r in rows && r.child.system && r.child.id == id;
        assert (r.pivot, id) in pairs;
      }
    }
    PairsMeanOnce(rows);
  }

  lemma CountsArePageable(rows: seq<Row>, shared: bool, p: ParentId)
    requires Consistent(rows)
    ensures TotalFor(rows, shared, p) == |PlainChildren(rows, shared, p)|
            <==> !shared || (SystemOnce(rows) && !OwnsSystem(rows, p))
    ensures TotalFor(rows, shared, p) >= |PlainChildren(rows, shared, p)|
  {
    PlainCount(rows, shared, p);
    if shared {
      UnionCount(OwnIds(rows, p), SystemIds(rows));
      SystemCounts(rows);
      OwnMeansOwned(rows, p);
    }
  }

  lemma PairsMeanOnce(rows: seq<Row>)
    ensures OneFirst(SystemPairs(rows)) <==> SystemOnce(rows)
  {
    var pairs := SystemPairs(rows);
    if OneFirst(pairs) {
      forall r, s | r in rows && s in rows && r.child.system && s.child.system && r.child.id == s.child.id
        ensures r.pivot == s.pivot
      {
        assert (r.pivot, r.child.id) in pairs && (s.pivot, s.child.id) in pairs;
      }
    }
  }

  lemma OwnMeansOwned(rows: seq<Row>, p: ParentId)
    requires Consistent(rows)
    ensures OwnIds(rows, p) !! SystemIds(rows) <==> !OwnsSystem(rows, p)
  {
    if OwnsSystem(rows, p) {
      var r :| r in rows && r.pivot == p && r.child.system;
      assert r.child.id in OwnIds(rows, p) && r.child.id in SystemIds(rows);
    }
    if id :| id in OwnIds(rows, p) && id in SystemIds(rows) {
      var r :| r in rows && r.pivot == p && r.child.id == id;
      var s :| s in rows && s.child.system && s.child.id == id;
      assert r.child == s.child;
    }
  }

  // The parent's own system children, and its others.
  function OwnSystem(rows: seq<Row>, p: ParentId): set<string> {
    set r | r in rows && r.pivot == p && r.child.system :: r.child.id
  }

  function OwnOthers(rows: seq<Row>, p: ParentId): set<string> {
    set r | r in rows && r.pivot == p && !r.child.system :: r.child.id
  }

  lemma SharedGroups(rows: seq<Row>, p: ParentId)
    ensures GroupIds(rows, true, p, Some(true)) == OwnSystem(rows, p)
    ensures GroupIds(rows, true, p, Some(false)) == OwnOthers(rows, p)
    ensures OwnSystem(rows, p) != {} <==> exists r :: r in rows && r.pivot == p && SystemColumn(r, true) == Some(true)
    ensures OwnOthers(rows, p) != {} <==> exists r :: r in rows && r.pivot == p && SystemColumn(r, true) == Some(false)
  {
    if r :| r in rows && r.pivot == p && r.child.system {
      assert r.child.id in OwnSystem(rows, p);
    }
    if r :| r in rows && r.pivot == p && !r.child.system {
      assert r.child.id in OwnOthers(rows, p);
    }
    if id :| id in OwnSystem(rows, p) {
      var r :| r in rows && r.pivot == p && r.child.system && r.child.id == id;
      assert SystemColumn(r, true) == Some(true);
    }
    if id :| id in OwnOthers(rows, p) {
      var r :| r in rows && r.pivot == p && !r.child.system && r.child.id == id;
      assert SystemColumn(r, true) == Some(false);
    }
  }

  lemma SharedOwnCount(rows: seq<Row>, p: ParentId, own: nat)
    ensures OwnCount(rows, true, p, own)
            <==> || (OwnSystem(rows, p) != {} && own == |OwnSystem(rows, p)|)
                 || ((OwnOthers(rows, p) != {} || OwnSystem(rows, p) == {}) && own == |OwnOthers(rows, p)|)
  {
    SharedGroups(rows, p);
    forall r | r in rows && r.pivot == p
      ensures SystemColumn(r, true) == Some(true) || SystemColumn(r, true) == Some(false)
    {
    }
  }

  lemma SharedPlainCount(rows: seq<Row>, p: ParentId)
    requires Consistent(rows)
    ensures |PlainChildren(rows, true, p)| == |OwnOthers(rows, p)| + |SystemIds(rows)|
  {
    PlainCount(rows, true, p);
    UnionCount(OwnOthers(rows, p), SystemIds(rows));
    assert OwnIds(rows, p) + SystemIds(rows) == OwnOthers(rows, p) + SystemIds(rows);
    assert OwnOthers(rows, p) !! SystemIds(rows);
  }

  // Every total a parent may get counts its children when system entities sit in one group each and its
  // own group has as many others as system children, if it has any of these.
  ghost predicate TotalsCount(rows: seq<Row>, shared: bool, p: ParentId) {
    shared ==> SystemOnce(rows) && (OwnSystem(rows, p) == {} || |OwnSystem(rows, p)| == |OwnOthers(rows, p)|)
  }

  lemma PossibleTotalsCount(rows: seq<Row>, shared: bool, p: ParentId)
    requires Consistent(rows)
    ensures (forall t: nat :: PossibleTotal(rows, shared, p, t) ==> t == |PlainChildren(rows, shared, p)|)
            <==> TotalsCount(rows, shared, p)
  {
    if shared {
      SharedTotalsCount(rows, p);
    } else {
      CountsArePageable(rows, false, p);
      forall t: nat ensures PossibleTotal(rows, false, p, t) <==> t == |PlainChildren(rows, false, p)| {
        PureTotal(rows, false, p, t);
      }
    }
  }

  lemma SharedTotalsCount(rows: seq<Row>, p: ParentId)
    requires Consistent(rows)
    ensures (forall t: nat :: PossibleTotal(rows, true, p, t) ==> t == |PlainChildren(rows, true, p)|)
            <==> TotalsCount(rows, true, p)
  {
    var pairs, own, others := |SystemPairs(rows)|, |OwnSystem(rows, p)|, |OwnOthers(rows, p)|;
    SharedPlainCount(rows, p);
    SystemCounts(rows);
    SharedOwnCount(rows, p, own);
    SharedOwnCount(rows, p, others);
    assert OwnSystem(rows, p) != {} ==> PossibleTotal(rows, true, p, pairs + own);
    assert OwnOthers(rows, p) != {} || OwnSystem(rows, p) == {} ==> PossibleTotal(rows, true, p, pairs + others);
    forall t: nat | PossibleTotal(rows, true, p, t) ensures t == pairs + own || t == pairs + others {
      SharedOwnCount(rows, p, t - pairs);
    }
  }

  lemma TotalsOfRows(rows: seq<Row>, shared: bool, p: ParentId, total: nat)
    ensures PossibleTotal(Where(rows, [p], shared), shared, p, total) <==> PossibleTotal(rows, shared, p, total)
  {
    var base := Where(rows, [p], shared);
    assert InFilters(p, [p]) by { assert p in [p]; }
    forall r: Row | r.pivot == p || (shared && r.child.system) ensures r in base <==> r in rows {
      WhereMembers(rows, [p], shared, r);
    }
    forall system ensures GroupIds(base, shared, p, system) == GroupIds(rows, shared, p, system) {
    }
    if shared {
      assert SystemPairs(base) == SystemPairs(rows);
    }
  }

  /** In any coherent batch and on any database, every total a key may get is the number of distinct
      children its parent can page through exactly when every system entity sits in one group and the
      parent's own group, if it holds any, holds as many other children as system ones. */
  lemma {:induction false} AnswerTotalsArePageable(keys: seq<Key>, db: Database, i: nat)
    requires i < |keys| && Serves(db, keys) && Coherent(keys) && keys[i].includeTotalCount
    ensures (forall r :: IsAnswer(keys, db, i, r) ==>
               r.totalCount == Some(|PlainChildren(db(QueryOf(keys[i])), keys[i].shared, keys[i].parent)|))
            <==> TotalsCount(db(QueryOf(keys[i])), keys[i].shared, keys[i].parent)
  {
    var k := keys[i];
    var rows, parents := db(QueryOf(k)), ParentsOf(keys, k);
    assert k in keys;
    AnswerInBatch(keys, db, i);
    PossibleTotalsCount(rows, k.shared, k.parent);
    forall r | IsAnswer(keys, db, i, r)
      ensures r.totalCount.Some? && PossibleTotal(rows, k.shared, k.parent, r.totalCount.value)
    {
      ResponseMeaning(db, k, parents, r);
      TotalsOfRows(rows, k.shared, k.parent, GetOr(r.totalCount, 0));
    }
    if t: nat :| PossibleTotal(rows, k.shared, k.parent, t) && t != |PlainChildren(rows, k.shared, k.parent)| {
      var r := ResponseWithTotal(db, k, parents, t);
      assert IsAnswer(keys, db, i, r);
    }
  }

  lemma ResponseWithTotal(db: Database, k: Key, parents: seq<ParentId>, t: nat) returns (r: Response)
    requires k.parent in parents && k.includeTotalCount && PossibleTotal(db(QueryOf(k)), k.shared, k.parent, t)
    ensures IsResponse(db, k, parents, k.parent, r) && r.totalCount == Some(t)
  {
    r := Response(Some(t), PageWith(db, k, parents, Some(t)));
    TotalsOfRows(db(QueryOf(k)), k.shared, k.parent, t);
    ResponseMeaning(db, k, parents, r);
  }

  lemma CrowdedSystem(p: ParentId, first: int, n: nat)
    ensures |OwnSystem(Crowded(p, first, n), p)| == 1 && |SystemPairs(Crowded(p, first, n))| == 1
  {
    var rows := Crowded(p, first, n);
    var id := rows[n].child.id;
    forall r | r in rows ensures r.pivot == p && (r.child.system ==> r == rows[n]) {
      var i :| 0 <= i <= n && rows[i] == r;
    }
    assert rows[n] in rows;
    assert OwnSystem(rows, p) == {id};
    assert SystemPairs(rows) == {(p, id)};
  }

  lemma CrowdedCounts(p: ParentId, first: int, n: nat)
    ensures |OwnSystem(Crowded(p, first, n), p)| == 1 && |SystemPairs(Crowded(p, first, n))| == 1
    ensures |PlainChildren(Crowded(p, first, n), true, p)| > n
  {
    var rows := Crowded(p, first, n);
    var es := seq(n + 1, j requires 0 <= j <= n => rows[j].child);
    CrowdedSystem(p, first, n);
    CrowdedIsWellFormed(p, first, n);
    PlainMeaning(rows, true, p);
    forall e | e in es ensures e in PlainChildren(rows, true, p) {
      var j :| 0 <= j <= n && es[j] == e;
      assert rows[j] in rows && rows[j].child == e;
    }
    KeyCount(es);
    KeyCount(PlainChildren(rows, true, p));
    SubsetCardinality(Keys(es), Keys(PlainChildren(rows, true, p)));
  }

  /** A group of more children than a page and one system child can get the total two. */
  lemma TotalCanFallShort(k: Key) returns (r: Response)
    requires Typed([k]) && k.shared && k.includeTotalCount
    ensures Serves(CrowdedDatabase(k, k.parent), [k]) && IsAnswer([k], CrowdedDatabase(k, k.parent), 0, r)
    ensures r.totalCount == Some(2)
    ensures |PlainChildren(CrowdedDatabase(k, k.parent)(QueryOf(k)), true, k.parent)| > PageSize(k) + 1
  {
    var db := CrowdedDatabase(k, k.parent);
    assert k in [k];
    CrowdedDatabaseServes(k, k.parent, [k]);
    CrowdedTotal(k.parent, PastCursorKey(k.args.cursor), PageSize(k) + 1);
    AloneAnswer(k, db);
    r := ResponseWithTotal(db, k, [k.parent], 2);
  }

  lemma CrowdedTotal(p: ParentId, first: int, n: nat)
    ensures PossibleTotal(Crowded(p, first, n), true, p, 2)
    ensures |PlainChildren(Crowded(p, first, n), true, p)| > n
  {
    CrowdedCounts(p, first, n);
    SharedOwnCount(Crowded(p, first, n), p, 1);
  }

  /** Where the total is determined, no group mixing system rows with others, the key is answered with the
      number of distinct children its parent can page through exactly when every system entity sits in
      one group and the parent's own group holds none. */
  lemma AnswerTotalIsPageable(keys: seq<Key>, db: Database, i: nat, r: Response)
    requires i < |keys| && Serves(db, keys) && Coherent(keys) && IsAnswer(keys, db, i, r)
    requires TotalsAreExact(keys[i], db)
    ensures r.totalCount.Some? <==> keys[i].includeTotalCount
    ensures keys[i].includeTotalCount ==>
              (r.totalCount.value == |PlainChildren(db(QueryOf(keys[i])), keys[i].shared, keys[i].parent)|
               <==> !keys[i].shared
                    || (SystemOnce(db(QueryOf(keys[i]))) && !OwnsSystem(db(QueryOf(keys[i])), keys[i].parent)))
  {
    var k := keys[i];
    assert k in keys;
    AnswerInBatch(keys, db, i);
    ExactResponse(db, k, ParentsOf(keys, k), k.parent, r);
    SameTotalInAnyBatch(db(QueryOf(k)), ParentsOf(keys, k), k.shared, k.parent);
    CountsArePageable(db(QueryOf(k)), k.shared, k.parent);
  }

  lemma {:induction false} SeekFromStart(rows: seq<Row>)
    ensures Seek(rows, Start) == rows
  {
    if rows != [] {
      SeekFromStart(rows[..|rows| - 1]);
    }
  }

  ghost predicate ThreeOwn(rows: seq<Row>, p: ParentId) {
    && |rows| == 3 && rows[0] == Row(p, Entity("1", 1, false)) && rows[1] == Row(p, Entity("22", 2, false))
    && rows[2] == Row(p, Entity("333", 3, false))
  }

  lemma ThreeOwnAreServed(rows: seq<Row>, p: ParentId)
    requires ThreeOwn(rows, p)
    ensures WellFormed(rows) && forall r :: r in rows ==> r.pivot == p
  {
    forall i | 0 <= i < 3 ensures |rows[i].child.id| == i + 1 && rows[i].child.key == i + 1 && rows[i].pivot == p {
    }
    forall r, s | r in rows && s in rows && (r.child.id == s.child.id || r.child.key == s.child.key)
      ensures r.child == s.child
    {
      var i, j :| 0 <= i < 3 && 0 <= j < 3 && rows[i] == r && rows[j] == s;
      assert i == j;
    }
  }

  lemma ThreeOwnChildren(rows: seq<Row>, p: ParentId)
    requires ThreeOwn(rows, p)
    ensures |PlainChildren(rows, false, p)| == 3
  {
    PlainCount(rows, false, p);
    var ids := {"1", "22", "333"};
    assert |"1"| == 1 && |"22"| == 2 && |"333"| == 3;
    assert |ids| == 3;
    assert rows[0] in rows && rows[1] in rows && rows[2] in rows;
    assert OwnIds(rows, p) == ids;
  }

  /** At three children and a page size of two the first page backwards holds more than two of them,
      where offset paging would hold the last one. */
  lemma RemainderOverflows(k: Key, db: Database)
    requires Typed([k]) && Serves(db, [k]) && !k.shared && k.includeTotalCount && ThreeOwn(db(QueryOf(k)), k.parent)
    requires k.args.direction == Some(Backward) && k.args.count == Some(2) && k.args.cursor == Start
    ensures |Answer([k], db, 0).page.edges| > 2
    ensures |LastOffsetPage(PlainChildren(db(QueryOf(k)), k.shared, k.parent), 2)| == 1
  {
    var v := ViewOf(db, k, [k.parent]);
    ThreeOwnAreServed(db(QueryOf(k)), k.parent);
    ThreeOwnChildren(db(QueryOf(k)), k.parent);
    ViewIsValid(db, k, [k.parent]);
    NothingMixesUnshared(v);
    ThreeOwnTotal(k, db);
    AloneEdges(db, k);
    FirstPageBackwardsExactly(db, k, [k.parent]);
    LastOffsetPageIsFirst(PlainChildren(db(QueryOf(k)), k.shared, k.parent), 2);
  }

  lemma ThreeOwnTotal(k: Key, db: Database)
    requires !k.shared && k.includeTotalCount && ThreeOwn(db(QueryOf(k)), k.parent)
    ensures Answer([k], db, 0).totalCount == Some(3)
  {
    ThreeOwnAreServed(db(QueryOf(k)), k.parent);
    ThreeOwnChildren(db(QueryOf(k)), k.parent);
    AloneAnswer(k, db);
    SameTotalInAnyBatch(db(QueryOf(k)), [k.parent], false, k.parent);
    CountsArePageable(db(QueryOf(k)), false, k.parent);
  }
}
