/**
 What a client lists that follows cursors from page to page: going forward every child exactly once;
 going backwards too, unless shared system children leave gaps.
 */
module ChildConnectionWalks {
  import opened Collections
  import opened ChildRelation
  import opened ConnectionKeys
  import opened ChildConnectionLoader
  import opened ChildConnectionTheorems
  import opened ChildConnectionPages

  // ----- paging forward

  function KeyAt(k: Key, cursor: Cursor): Key {
    k.(args := k.args.(cursor := cursor))
  }

  function PageAt(db: Database, k: Key, cursor: Cursor): Page {
    Answer([KeyAt(k, cursor)], db, 0).page
  }

  // The pages a client gets that starts at a cursor and follows end cursors while there is a next page.
  ghost predicate Walk(pages: seq<Page>, db: Database, k: Key, cursor: Cursor)
    decreases |pages|
  {
    && pages != [] && pages[0] == PageAt(db, k, cursor)
    && if pages[0].hasNextPage
       then pages[0].endCursor.Some? && Walk(pages[1..], db, k, After(pages[0].endCursor.value.key))
       else |pages| == 1
  }

  function EdgesOf(pages: seq<Page>): seq<Entity> {
    if pages == [] then [] else pages[0].edges + EdgesOf(pages[1..])
  }

  // What k's parent can be shown past a cursor.
  function ChildrenPast(db: Database, k: Key, cursor: Cursor): seq<Entity> {
    PlainChildren(Seek(db(QueryOf(k)), cursor), k.shared, k.parent)
  }

  lemma ForwardPage(data: seq<Entity>, pageSize: nat, cursor: Cursor, total: nat)
    requires pageSize > 0
    ensures var page := PageOf(Take(data, pageSize + 1), pageSize, cursor, total, Forward);
            && page.edges == Take(data, pageSize)
            && (page.hasNextPage <==> |data| > pageSize)
            && (page.hasNextPage ==> page.endCursor == Some(data[pageSize - 1]))
  {
  }

  lemma AloneIsPlain(db: Database, k: Key)
    requires Typed([k]) && Serves(db, [k]) && DirectionOf(k) == Forward
    ensures Answer([k], db, 0).page == PlainPage(db, k, Answer([k], db, 0).totalCount)
  {
    var v, total := ViewOf(db, k, [k.parent]), ResponseFor(db, k, [k.parent], k.parent).totalCount;
    ViewIsValid(db, k, [k.parent]);
    AloneGroupsVisible(v);
    PageIsPlain(db, k, [k.parent], total);
    PlainWhereVisible(v, Forward, FullPage(k, total));
    AloneAnswer(k, db);
  }

  lemma ServedAt(db: Database, k: Key, cursor: Cursor)
    requires Typed([k]) && Serves(db, [k])
    ensures Typed([KeyAt(k, cursor)]) && Serves(db, [KeyAt(k, cursor)])
  {
    assert k in [k] && QueryOf(KeyAt(k, cursor)) == QueryOf(k);
  }

  lemma PlainPageAt(db: Database, k: Key, cursor: Cursor, total: Option<nat>)
    requires DirectionOf(k) == Forward
    ensures PlainPage(db, KeyAt(k, cursor), total)
         == PageOf(Take(ChildrenPast(db, k, cursor), PageSize(k) + 1), PageSize(k), cursor, GetOr(total, 0), Forward)
  {
    assert QueryOf(KeyAt(k, cursor)) == QueryOf(k);
  }

  lemma ForwardIgnoresTotal(data: seq<Entity>, size: nat, cursor: Cursor, total: nat)
    requires size > 0
    ensures PageOf(data, size, cursor, total, Forward) == PageOf(data, size, cursor, 0, Forward)
  {
  }

  lemma PageAtIsPlain(db: Database, k: Key, cursor: Cursor)
    requires Typed([k]) && Serves(db, [k]) && DirectionOf(k) == Forward
    ensures PageAt(db, k, cursor)
         == PageOf(Take(ChildrenPast(db, k, cursor), PageSize(k) + 1), PageSize(k), cursor, 0, Forward)
  {
    var at := KeyAt(k, cursor);
    ServedAt(db, k, cursor);
    AloneIsPlain(db, at);
    PlainPageAt(db, k, cursor, Answer([at], db, 0).totalCount);
    ForwardIgnoresTotal(Take(ChildrenPast(db, k, cursor), PageSize(k) + 1), PageSize(k), cursor,
                        GetOr(Answer([at], db, 0).totalCount, 0));
  }

  lemma PageOfWalk(db: Database, k: Key, cursor: Cursor)
    requires Typed([k]) && Serves(db, [k]) && DirectionOf(k) == Forward
    ensures PageAt(db, k, cursor).edges == Take(ChildrenPast(db, k, cursor), PageSize(k))
    ensures PageAt(db, k, cursor).hasNextPage <==> |ChildrenPast(db, k, cursor)| > PageSize(k)
    ensures PageAt(db, k, cursor).hasNextPage ==>
              PageAt(db, k, cursor).endCursor == Some(ChildrenPast(db, k, cursor)[PageSize(k) - 1])
  {
    PageAtIsPlain(db, k, cursor);
    ForwardPage(ChildrenPast(db, k, cursor), PageSize(k), cursor, 0);
  }

  // Past the child at position i the children after it remain.
  lemma PastChild(rows: seq<Row>, shared: bool, p: ParentId, cursor: Cursor, i: nat)
    requires WellFormed(rows) && i < |PlainChildren(Seek(rows, cursor), shared, p)|
    ensures PlainChildren(Seek(rows, After(PlainChildren(Seek(rows, cursor), shared, p)[i].key)), shared, p)
         == PlainChildren(Seek(rows, cursor), shared, p)[i + 1..]
  {
    var all := PlainChildren(Seek(rows, cursor), shared, p);
    var next := After(all[i].key);
    var rest := PlainChildren(Seek(rows, next), shared, p);
    SeekKeepsOrder(rows, cursor);
    SeekKeepsOrder(rows, next);
    PlainMeaning(Seek(rows, cursor), shared, p);
    PlainMeaning(Seek(rows, next), shared, p);
    assert all[i] in all;
    var last :| last in Seek(rows, cursor) && VisibleTo(last, p, shared) && last.child == all[i];
    SeekMembers(rows, cursor, last);
    forall e ensures e in rest <==> e in all && e.key > all[i].key {
      forall r ensures r in Seek(rows, next) <==> r in Seek(rows, cursor) && r.child.key > all[i].key {
        SeekMembers(rows, cursor, r);
        SeekMembers(rows, next, r);
      }
    }
    AfterPosition(all, i);
    SameElements(rest, all[i + 1..]);
  }

  lemma AfterPosition(all: seq<Entity>, i: nat)
    requires Ascending(all) && i < |all|
    ensures Ascending(all[i + 1..]) && forall e :: e in all[i + 1..] <==> e in all && e.key > all[i].key
  {
    forall e | e in all && e.key > all[i].key ensures e in all[i + 1..] {
      var j :| 0 <= j < |all| && all[j] == e;
      assert all[i + 1..][j - i - 1] == e;
    }
  }

  // A page and what remains past its end cursor are all that remained.
  lemma NextOfWalk(db: Database, k: Key, cursor: Cursor, page: Page)
    requires Typed([k]) && Serves(db, [k]) && DirectionOf(k) == Forward && page == PageAt(db, k, cursor)
    ensures !page.hasNextPage ==> page.edges == ChildrenPast(db, k, cursor)
    ensures page.hasNextPage ==> page.endCursor.Some? && page.edges != []
    ensures page.hasNextPage ==>
              ChildrenPast(db, k, cursor) == page.edges + ChildrenPast(db, k, After(page.endCursor.value.key))
  {
    PageOfWalk(db, k, cursor);
    assert k in [k];
    NextOfPage(db, k, cursor, page);
  }

  lemma NextOfPage(db: Database, k: Key, cursor: Cursor, page: Page)
    requires WellFormed(db(QueryOf(k))) && page.edges == Take(ChildrenPast(db, k, cursor), PageSize(k))
    requires page.hasNextPage <==> |ChildrenPast(db, k, cursor)| > PageSize(k)
    requires page.hasNextPage ==> page.endCursor == Some(ChildrenPast(db, k, cursor)[PageSize(k) - 1])
    ensures !page.hasNextPage ==> page.edges == ChildrenPast(db, k, cursor)
    ensures page.hasNextPage ==> page.endCursor.Some? && page.edges != []
    ensures page.hasNextPage ==>
              ChildrenPast(db, k, cursor) == page.edges + ChildrenPast(db, k, After(page.endCursor.value.key))
  {
    if page.hasNextPage {
      PageAndRest(db(QueryOf(k)), k.shared, k.parent, cursor, PageSize(k));
    }
  }

  lemma PageAndRest(rows: seq<Row>, shared: bool, p: ParentId, cursor: Cursor, size: nat)
    requires WellFormed(rows) && 0 < size < |PlainChildren(Seek(rows, cursor), shared, p)|
    ensures var all := PlainChildren(Seek(rows, cursor), shared, p);
            all == Take(all, size) + PlainChildren(Seek(rows, After(all[size - 1].key)), shared, p)
  {
    var all := PlainChildren(Seek(rows, cursor), shared, p);
    PastChild(rows, shared, p, cursor, size - 1);
    assert all == all[..size] + all[size..];
  }

  lemma {:induction false} WalkListsChildren(pages: seq<Page>, db: Database, k: Key, cursor: Cursor)
    requires Typed([k]) && Serves(db, [k]) && DirectionOf(k) == Forward && Walk(pages, db, k, cursor)
    ensures EdgesOf(pages) == ChildrenPast(db, k, cursor)
    decreases |pages|
  {
    NextOfWalk(db, k, cursor, pages[0]);
    if pages[0].hasNextPage {
      WalkListsChildren(pages[1..], db, k, After(pages[0].endCursor.value.key));
    } else {
      assert EdgesOf(pages) == pages[0].edges + [];
    }
  }

  lemma {:induction false} WalkEnds(db: Database, k: Key, cursor: Cursor) returns (pages: seq<Page>)
    requires Typed([k]) && Serves(db, [k]) && DirectionOf(k) == Forward
    ensures Walk(pages, db, k, cursor)
    decreases |ChildrenPast(db, k, cursor)|
  {
    var page := PageAt(db, k, cursor);
    NextOfWalk(db, k, cursor, page);
    if page.hasNextPage {
      var rest := WalkEnds(db, k, After(page.endCursor.value.key));
      pages := [page] + rest;
      assert pages[1..] == rest;
    } else {
      pages := [page];
    }
  }

  /** Following end cursors from the start while there is a next page comes to an end, and lists each
      of the parent's own and system children exactly once, in order. */
  lemma {:induction false} PagingForwardListsEachChildOnce(db: Database, k: Key)
    requires Typed([k]) && Serves(db, [k]) && DirectionOf(k) == Forward
    ensures exists pages :: Walk(pages, db, k, Start)
    ensures forall pages :: Walk(pages, db, k, Start) ==>
              EdgesOf(pages) == PlainChildren(db(QueryOf(k)), k.shared, k.parent)
    ensures Ascending(PlainChildren(db(QueryOf(k)), k.shared, k.parent))
    ensures forall e :: e in PlainChildren(db(QueryOf(k)), k.shared, k.parent)
                        <==> exists r :: r in db(QueryOf(k)) && VisibleTo(r, k.parent, k.shared) && r.child == e
  {
    assert k in [k];
    SeekFromStart(db(QueryOf(k)));
    PlainMeaning(db(QueryOf(k)), k.shared, k.parent);
    var pages := WalkEnds(db, k, Start);
    forall pages | Walk(pages, db, k, Start)
      ensures EdgesOf(pages) == PlainChildren(db(QueryOf(k)), k.shared, k.parent)
    {
      WalkListsChildren(pages, db, k, Start);
    }
  }

  // ----- pages backwards, as lists

  // What a page is made of: the collected children, those that remain, and the size it is cut to.
  datatype Leg = Leg(data: seq<Entity>, plain: seq<Entity>, adjusted: nat)

  ghost predicate IsLeg(page: Page, leg: Leg, n: nat) {
    && Within(leg.data, leg.plain) && Take(leg.data, n) == Take(leg.plain, n) && 0 < leg.adjusted < n
    && page.edges == Reverse(if |leg.data| == leg.adjusted + 1 then leg.data[..leg.adjusted] else leg.data)
    && (page.hasPreviousPage <==> |leg.data| > leg.adjusted)
    && page.startCursor == if page.edges == [] then None else Some(page.edges[0])
  }

  // What comes after a child.
  ghost predicate IsRest(rest: seq<Entity>, plain: seq<Entity>, child: Entity) {
    |rest| < |plain| && forall e :: e in rest <==> e in plain && e.key > child.key
  }

  // The children of the next leg are those after the start cursor of the page.
  ghost predicate Follows(page: Page, leg: Leg, next: Leg) {
    page.startCursor.Some? && IsRest(next.plain, leg.plain, page.startCursor.value)
  }

  ghost predicate Chain(pages: seq<Page>, legs: seq<Leg>, n: nat) {
    && |pages| == |legs| > 0
    && (forall i :: 0 <= i < |legs| ==> IsLeg(pages[i], legs[i], n))
    && (forall i :: 0 <= i < |legs| ==> (pages[i].hasPreviousPage <==> i + 1 < |legs|))
    && (forall i :: 0 < i < |legs| ==> Follows(pages[i - 1], legs[i - 1], legs[i]))
  }

  lemma RestOfChain(pages: seq<Page>, legs: seq<Leg>, n: nat)
    requires Chain(pages, legs, n) && |legs| > 1
    ensures Chain(pages[1..], legs[1..], n) && Follows(pages[0], legs[0], legs[1])
  {
    var p, l := pages[1..], legs[1..];
    forall i | 0 <= i < |l|
      ensures IsLeg(p[i], l[i], n) && (p[i].hasPreviousPage <==> i + 1 < |l|)
      ensures i > 0 ==> Follows(p[i - 1], l[i - 1], l[i])
    {
      assert p[i] == pages[i + 1] && l[i] == legs[i + 1];
    }
    assert Follows(pages[1 - 1], legs[1 - 1], legs[1]);
  }

  // Earlier pages go before later ones.
  function EdgesBack(pages: seq<Page>): seq<Entity> {
    if pages == [] then [] else EdgesBack(pages[1..]) + pages[0].edges
  }

  // No child is held while one before it is not.
  ghost predicate NoGap(leg: Leg) {
    forall i: nat, j: nat :: i < j && HoldsAt(leg.data, leg.plain, j) ==> HoldsAt(leg.data, leg.plain, i)
  }

  ghost predicate NoGaps(legs: seq<Leg>) {
    forall l :: 0 <= l < |legs| ==> NoGap(legs[l])
  }

  // Without a gap the list is a prefix.
  lemma NoGapIsPrefix(leg: Leg)
    requires Within(leg.data, leg.plain) && NoGap(leg)
    ensures leg.data == Take(leg.plain, |leg.data|)
  {
    var data, plain := leg.data, leg.plain;
    forall i | 0 <= i < |plain| && i < |data| ensures plain[i] in data {
      if plain[i] !in data {
        forall e | e in data ensures e in plain[..i] {
          var j :| 0 <= j < |plain| && plain[j] == e;
          assert HoldsAt(data, plain, j) && !HoldsAt(data, plain, i);
          assert plain[..i][j] == e;
        }
        NoLonger(data, plain[..i]);
      }
    }
    SamePrefix(data, plain, |data|);
  }

  // Then the page takes the first of the children that remain.
  lemma PrefixPage(page: Page, leg: Leg, n: nat)
    requires IsLeg(page, leg, n) && leg.data == Take(leg.plain, |leg.data|)
    ensures !page.hasPreviousPage ==> page.edges == Reverse(leg.plain)
    ensures page.hasPreviousPage ==>
              && 0 < |page.edges| <= |leg.plain| && page.edges == Reverse(leg.plain[..|page.edges|])
              && page.startCursor == Some(leg.plain[|page.edges| - 1])
  {
    PrefixAgrees(leg.data, leg.plain, n);
    if page.hasPreviousPage {
      var m := if |leg.data| == leg.adjusted + 1 then leg.adjusted else |leg.data|;
      assert page.edges == Reverse(leg.data[..m]) && |page.edges| == m;
      assert leg.data[..m] == leg.plain[..m];
    } else {
      assert leg.data == leg.plain;
    }
  }

  // At a gap the page runs on past it.
  lemma GapPage(page: Page, leg: Leg, n: nat, i: nat, j: nat) returns (l: nat)
    requires IsLeg(page, leg, n) && i < j && HoldsAt(leg.data, leg.plain, j) && !HoldsAt(leg.data, leg.plain, i)
    ensures page.hasPreviousPage && page.edges == Reverse(leg.data)
    ensures i < l < |leg.plain| && page.startCursor == Some(leg.plain[l])
  {
    var data, plain := leg.data, leg.plain;
    PrefixAgrees(data, plain, n);
    var q :| 0 <= q < |data| && data[q] == plain[j];
    var last := data[|data| - 1];
    assert last in data && last.key >= data[q].key;
    l :| 0 <= l < |plain| && plain[l] == last;
    assert page.edges[0] == last;
  }

  lemma EdgesOfLeg(page: Page, leg: Leg, n: nat)
    requires IsLeg(page, leg, n)
    ensures forall e :: e in page.edges ==> e in leg.data && e in leg.plain
  {
    ReverseMembers(if |leg.data| == leg.adjusted + 1 then leg.data[..leg.adjusted] else leg.data);
  }

  // The edges of a chain are among the children it starts from.
  lemma {:induction false} ChainWithin(pages: seq<Page>, legs: seq<Leg>, n: nat)
    requires Chain(pages, legs, n)
    ensures forall e :: e in EdgesBack(pages) ==> e in legs[0].plain
    decreases |pages|
  {
    EdgesOfLeg(pages[0], legs[0], n);
    if |legs| > 1 {
      RestOfChain(pages, legs, n);
      ChainWithin(pages[1..], legs[1..], n);
    } else {
      assert EdgesBack(pages[1..]) == [];
    }
  }

  // A child before one that is held, and not held itself, is in no page of the chain.
  lemma LostAtGap(pages: seq<Page>, legs: seq<Leg>, n: nat, i: nat, j: nat)
    requires Chain(pages, legs, n)
    requires i < j && HoldsAt(legs[0].data, legs[0].plain, j) && !HoldsAt(legs[0].data, legs[0].plain, i)
    ensures legs[0].plain[i] !in EdgesBack(pages)
  {
    var plain := legs[0].plain;
    var l := GapPage(pages[0], legs[0], n, i, j);
    EdgesOfLeg(pages[0], legs[0], n);
    RestOfChain(pages, legs, n);
    ChainWithin(pages[1..], legs[1..], n);
    assert plain[i].key < plain[l].key;
  }

  lemma ReverseSplit(es: seq<Entity>, m: nat)
    requires m <= |es|
    ensures Reverse(es) == Reverse(es[m..]) + Reverse(es[..m])
  {
  }

  lemma SameBefore(a: seq<Entity>, b: seq<Entity>, c: seq<Entity>)
    ensures a + c == b + c <==> a == b
  {
    if a + c == b + c {
      assert |a| == |b|;
      assert a == (a + c)[..|a|] == (b + c)[..|b|] == b;
    }
  }

  // What follows a page that took the first m children are the children after them.
  lemma FollowsAfter(page: Page, leg: Leg, next: Leg, m: nat)
    requires Ascending(leg.plain) && Ascending(next.plain) && Follows(page, leg, next)
    requires 0 < m <= |leg.plain| && page.startCursor == Some(leg.plain[m - 1])
    ensures next.plain == leg.plain[m..]
  {
    AfterPosition(leg.plain, m - 1);
    SameElements(next.plain, leg.plain[m..]);
  }

  lemma GapLoses(pages: seq<Page>, legs: seq<Leg>, n: nat)
    requires Chain(pages, legs, n) && !NoGap(legs[0])
    ensures EdgesBack(pages) != Reverse(legs[0].plain)
  {
    var leg := legs[0];
    var i: nat, j: nat :| i < j && HoldsAt(leg.data, leg.plain, j) && !HoldsAt(leg.data, leg.plain, i);
    LostAtGap(pages, legs, n, i, j);
    ReverseMembers(leg.plain);
    assert leg.plain[i] in leg.plain;
  }

  /** A chain lists the children it starts from, each once, exactly when none of its legs has a gap. */
  lemma {:induction false} ChainExactly(pages: seq<Page>, legs: seq<Leg>, n: nat)
    requires Chain(pages, legs, n)
    ensures EdgesBack(pages) == Reverse(legs[0].plain) <==> NoGaps(legs)
    decreases |pages|
  {
    var page, leg := pages[0], legs[0];
    if !NoGap(leg) {
      GapLoses(pages, legs, n);
    } else {
      NoGapIsPrefix(leg);
      PrefixPage(page, leg, n);
      if |legs| > 1 {
        RestOfChain(pages, legs, n);
        ChainExactly(pages[1..], legs[1..], n);
        FollowsAfter(page, leg, legs[1], |page.edges|);
        BeforePage(EdgesBack(pages[1..]), page, leg.plain);
        GapsOfRest(legs);
      } else {
        LastOfChain(pages);
      }
    }
  }

  lemma LastOfChain(pages: seq<Page>)
    requires |pages| == 1
    ensures EdgesBack(pages) == pages[0].edges
  {
    assert EdgesBack(pages[1..]) == [];
  }

  lemma BeforePage(earlier: seq<Entity>, page: Page, plain: seq<Entity>)
    requires |page.edges| <= |plain| && page.edges == Reverse(plain[..|page.edges|])
    ensures earlier + page.edges == Reverse(plain) <==> earlier == Reverse(plain[|page.edges|..])
  {
    ReverseSplit(plain, |page.edges|);
    SameBefore(earlier, Reverse(plain[|page.edges|..]), page.edges);
  }

  lemma GapsOfRest(legs: seq<Leg>)
    requires legs != []
    ensures NoGaps(legs) <==> NoGap(legs[0]) && NoGaps(legs[1..])
  {
    var rest := legs[1..];
    if NoGap(legs[0]) && NoGaps(rest) {
      forall l | 0 <= l < |legs| ensures NoGap(legs[l]) {
        assert l > 0 ==> legs[l] == rest[l - 1];
      }
    }
    if NoGaps(legs) {
      forall l | 0 <= l < |rest| ensures NoGap(rest[l]) {
        assert rest[l] == legs[l + 1];
      }
    }
  }

  // ----- paging backwards

  function ViewAt(db: Database, k: Key, cursor: Cursor): View {
    ViewOf(db, KeyAt(k, cursor), [k.parent])
  }

  // A page k's parent may get from a cursor, loaded alone.
  ghost predicate PageFrom(db: Database, k: Key, cursor: Cursor, page: Page) {
    exists r :: IsAnswer([KeyAt(k, cursor)], db, 0, r) && r.page == page
  }

  // Where the page before a page starts.
  function NextCursor(page: Page): Cursor {
    if page.startCursor.Some? then After(page.startCursor.value.key) else Start
  }

  function CursorAt(pages: seq<Page>, cursor: Cursor, i: nat): Cursor
    requires i <= |pages|
  {
    if i == 0 then cursor else NextCursor(pages[i - 1])
  }

  // The pages of a client that starts at a cursor and follows start cursors while there is a previous page.
  ghost predicate WalkBack(pages: seq<Page>, db: Database, k: Key, cursor: Cursor) {
    pages != [] && forall i: nat :: i < |pages| ==> StepBack(pages, db, k, cursor, i)
  }

  ghost predicate StepBack(pages: seq<Page>, db: Database, k: Key, cursor: Cursor, i: nat)
    requires i < |pages|
  {
    && PageFrom(db, k, CursorAt(pages, cursor, i), pages[i])
    && (pages[i].hasPreviousPage <==> i + 1 < |pages|)
  }

  // No child is shown while one before it is not.
  ghost predicate ShowsWithoutGap(v: View) {
    forall i: nat, j: nat :: i < j && v.ShowsAt(j) ==> v.ShowsAt(i)
  }

  ghost predicate WalkWithoutGap(pages: seq<Page>, db: Database, k: Key, cursor: Cursor) {
    forall i: nat :: i < |pages| ==> ShowsWithoutGap(ViewAt(db, k, CursorAt(pages, cursor, i)))
  }

  // Loaded alone from a cursor, a key is shown the first of the children that remain, up to the cut.
  lemma ViewFrom(db: Database, k: Key, cursor: Cursor)
    requires Typed([k]) && Serves(db, [k])
    ensures ViewAt(db, k, cursor).Valid() && ViewAt(db, k, cursor).Plain() == ChildrenPast(db, k, cursor)
    ensures ViewAt(db, k, cursor).n == PageSize(k) + 1
    ensures Take(ViewAt(db, k, cursor).Children(), PageSize(k) + 1)
         == Take(ChildrenPast(db, k, cursor), PageSize(k) + 1)
  {
    var at, v := KeyAt(k, cursor), ViewAt(db, k, cursor);
    ServedAt(db, k, cursor);
    ViewIsValid(db, at, [k.parent]);
    assert QueryOf(at) == QueryOf(k);
    AloneGroupsVisible(v);
    VisibleGroupsShowFirst(v);
    TruncatedGroupsSuffice(v);
  }

  lemma CutOfPage(k: Key, data: seq<Entity>, total: Option<nat>)
    requires DirectionOf(k) == Backward
    ensures var page := PageOf(data, PageSize(k), k.args.cursor, GetOr(total, 0), Backward);
            && page.edges == Reverse(if |data| == CutTo(k, total) + 1 then data[..CutTo(k, total)] else data)
            && (page.hasPreviousPage <==> |data| > CutTo(k, total))
            && page.startCursor == if page.edges == [] then None else Some(page.edges[0])
  {
    EdgesAreCut(k, data, total);
    PageTells(k, data, total);
    assert data[..|data|] == data;
  }

  lemma PageFromIsCut(db: Database, k: Key, cursor: Cursor, page: Page) returns (total: Option<nat>)
    requires DirectionOf(k) == Backward && PageFrom(db, k, cursor, page)
    ensures page == PageOf(ViewAt(db, k, cursor).Children(), PageSize(k), cursor, GetOr(total, 0), Backward)
  {
    var at := KeyAt(k, cursor);
    var r :| IsAnswer([at], db, 0, r) && r.page == page;
    AloneAnswer(at, db);
    ResponseMeaning(db, at, [k.parent], r);
    total := r.totalCount;
  }

  // The leg of a page from a cursor.
  ghost predicate IsLegOf(leg: Leg, db: Database, k: Key, cursor: Cursor, page: Page) {
    && leg.plain == ChildrenPast(db, k, cursor) && leg.data == ViewAt(db, k, cursor).Children()
    && IsLeg(page, leg, PageSize(k) + 1)
  }

  lemma LegOf(db: Database, k: Key, cursor: Cursor, page: Page) returns (leg: Leg)
    requires Typed([k]) && Serves(db, [k]) && DirectionOf(k) == Backward && PageFrom(db, k, cursor, page)
    ensures IsLegOf(leg, db, k, cursor, page)
  {
    var data := ViewAt(db, k, cursor).Children();
    var total := PageFromIsCut(db, k, cursor, page);
    ViewFrom(db, k, cursor);
    ShownByPosition(ViewAt(db, k, cursor), 0);
    CutOfPage(KeyAt(k, cursor), data, total);
    CutToSize(KeyAt(k, cursor), total);
    leg := Leg(data, ChildrenPast(db, k, cursor), CutTo(KeyAt(k, cursor), total));
  }

  lemma LegShows(db: Database, k: Key, cursor: Cursor, leg: Leg)
    requires Typed([k]) && Serves(db, [k])
    requires leg.plain == ChildrenPast(db, k, cursor) && leg.data == ViewAt(db, k, cursor).Children()
    ensures NoGap(leg) <==> ShowsWithoutGap(ViewAt(db, k, cursor))
  {
    ViewFrom(db, k, cursor);
    ShownWithinPlain(ViewAt(db, k, cursor));
  }

  // What remains past a child that remains is what is after it.
  lemma NextChildren(db: Database, k: Key, cursor: Cursor, child: Entity)
    requires Typed([k]) && Serves(db, [k]) && child in ChildrenPast(db, k, cursor)
    ensures IsRest(ChildrenPast(db, k, After(child.key)), ChildrenPast(db, k, cursor), child)
  {
    assert k in [k];
    var all := ChildrenPast(db, k, cursor);
    var i :| 0 <= i < |all| && all[i] == child;
    SeekKeepsOrder(db(QueryOf(k)), cursor);
    PlainMeaning(Seek(db(QueryOf(k)), cursor), k.shared, k.parent);
    PastChild(db(QueryOf(k)), k.shared, k.parent, cursor, i);
    AfterPosition(all, i);
  }

  // The page's start cursor is a child that remains.
  lemma StartsAtChild(page: Page, leg: Leg, n: nat)
    requires IsLeg(page, leg, n) && page.hasPreviousPage
    ensures page.startCursor.Some? && page.startCursor.value in leg.plain
  {
    EdgesOfLeg(page, leg, n);
    assert page.edges[0] in page.edges;
  }

  // What remains after a page is what comes after its start cursor.
  lemma RestOfPage(db: Database, k: Key, cursor: Cursor, page: Page, leg: Leg)
    requires Typed([k]) && Serves(db, [k]) && page.hasPreviousPage
    requires IsLeg(page, leg, PageSize(k) + 1) && leg.plain == ChildrenPast(db, k, cursor)
    ensures page.startCursor.Some?
    ensures IsRest(ChildrenPast(db, k, NextCursor(page)), leg.plain, page.startCursor.value)
  {
    StartsAtChild(page, leg, PageSize(k) + 1);
    NextChildren(db, k, cursor, page.startCursor.value);
  }

  ghost predicate IsLegAt(legs: seq<Leg>, pages: seq<Page>, db: Database, k: Key, cursor: Cursor, i: nat)
    requires i < |legs| && i < |pages|
  {
    IsLegOf(legs[i], db, k, CursorAt(pages, cursor, i), pages[i])
  }

  // The leg of every page of a walk.
  lemma {:induction false} LegsOf(pages: seq<Page>, db: Database, k: Key, cursor: Cursor, m: nat)
    returns (legs: seq<Leg>)
    requires Typed([k]) && Serves(db, [k]) && DirectionOf(k) == Backward && WalkBack(pages, db, k, cursor)
    requires m <= |pages|
    ensures |legs| == m && forall i: nat :: i < m ==> IsLegAt(legs, pages, db, k, cursor, i)
  {
    if m == 0 {
      legs := [];
    } else {
      var init := LegsOf(pages, db, k, cursor, m - 1);
      assert StepBack(pages, db, k, cursor, m - 1);
      var leg := LegOf(db, k, CursorAt(pages, cursor, m - 1), pages[m - 1]);
      legs := init + [leg];
      forall i: nat | i < m ensures IsLegAt(legs, pages, db, k, cursor, i) {
        assert i < m - 1 ==> IsLegAt(init, pages, db, k, cursor, i);
      }
    }
  }

  lemma LegsFollow(pages: seq<Page>, db: Database, k: Key, cursor: Cursor, legs: seq<Leg>, i: nat)
    requires Typed([k]) && Serves(db, [k]) && 0 < i < |pages| == |legs| && pages[i - 1].hasPreviousPage
    requires IsLegAt(legs, pages, db, k, cursor, i - 1) && IsLegAt(legs, pages, db, k, cursor, i)
    ensures Follows(pages[i - 1], legs[i - 1], legs[i])
  {
    RestOfPage(db, k, CursorAt(pages, cursor, i - 1), pages[i - 1], legs[i - 1]);
  }

  lemma LegsAreChain(pages: seq<Page>, db: Database, k: Key, cursor: Cursor, legs: seq<Leg>)
    requires Typed([k]) && Serves(db, [k]) && WalkBack(pages, db, k, cursor) && |legs| == |pages|
    requires forall i: nat :: i < |legs| ==> IsLegAt(legs, pages, db, k, cursor, i)
    ensures Chain(pages, legs, PageSize(k) + 1) && legs[0].plain == ChildrenPast(db, k, cursor)
    ensures NoGaps(legs) <==> WalkWithoutGap(pages, db, k, cursor)
  {
    forall i: nat | i < |legs|
      ensures IsLeg(pages[i], legs[i], PageSize(k) + 1) && (pages[i].hasPreviousPage <==> i + 1 < |legs|)
      ensures NoGap(legs[i]) <==> ShowsWithoutGap(ViewAt(db, k, CursorAt(pages, cursor, i)))
    {
      assert IsLegAt(legs, pages, db, k, cursor, i) && StepBack(pages, db, k, cursor, i);
      LegShows(db, k, CursorAt(pages, cursor, i), legs[i]);
    }
    forall i: nat | 0 < i < |legs| ensures Follows(pages[i - 1], legs[i - 1], legs[i]) {
      assert IsLegAt(legs, pages, db, k, cursor, i - 1) && IsLegAt(legs, pages, db, k, cursor, i);
      assert StepBack(pages, db, k, cursor, i - 1);
      LegsFollow(pages, db, k, cursor, legs, i);
    }
    assert IsLegAt(legs, pages, db, k, cursor, 0);
  }

  lemma WalkGrows(page: Page, rest: seq<Page>, db: Database, k: Key, cursor: Cursor)
    requires PageFrom(db, k, cursor, page) && page.hasPreviousPage && WalkBack(rest, db, k, NextCursor(page))
    ensures WalkBack([page] + rest, db, k, cursor)
  {
    var pages := [page] + rest;
    forall i: nat | i < |pages| ensures StepBack(pages, db, k, cursor, i) {
      if i > 0 {
        assert StepBack(rest, db, k, NextCursor(page), i - 1) && pages[i] == rest[i - 1];
        assert CursorAt(pages, cursor, i) == CursorAt(rest, NextCursor(page), i - 1);
      }
    }
  }

  lemma {:induction false} WalkBackEnds(db: Database, k: Key, cursor: Cursor) returns (pages: seq<Page>)
    requires Typed([k]) && Serves(db, [k]) && DirectionOf(k) == Backward
    ensures WalkBack(pages, db, k, cursor)
    decreases |ChildrenPast(db, k, cursor)|
  {
    var page := SomePageFrom(db, k, cursor);
    if page.hasPreviousPage {
      var leg := LegOf(db, k, cursor, page);
      RestOfPage(db, k, cursor, page, leg);
      var rest := WalkBackEnds(db, k, NextCursor(page));
      WalkGrows(page, rest, db, k, cursor);
      pages := [page] + rest;
    } else {
      pages := [page];
    }
  }

  lemma SomePageFrom(db: Database, k: Key, cursor: Cursor) returns (page: Page)
    ensures PageFrom(db, k, cursor, page)
  {
    var r := SomeResponse(db, KeyAt(k, cursor), [k.parent]);
    AloneAnswer(KeyAt(k, cursor), db);
    page := r.page;
  }

  // Without system entities there is no gap.
  lemma OwnShowsWithoutGap(v: View)
    requires v.Valid() && !v.shared
    ensures ShowsWithoutGap(v)
  {
    NothingMixesUnshared(v);
    OneGroupKeepsToFirst(v.Past(), false, v.p, v.n);
    VisibleGroupsShowFirst(v);
    ShownBeyondExactly(v);
  }

  lemma OwnWalkWithoutGap(pages: seq<Page>, db: Database, k: Key, cursor: Cursor)
    requires Typed([k]) && Serves(db, [k]) && !k.shared
    ensures WalkWithoutGap(pages, db, k, cursor)
  {
    forall i: nat | i < |pages| ensures ShowsWithoutGap(ViewAt(db, k, CursorAt(pages, cursor, i))) {
      ViewFrom(db, k, CursorAt(pages, cursor, i));
      OwnShowsWithoutGap(ViewAt(db, k, CursorAt(pages, cursor, i)));
    }
  }

  lemma {:induction false} WalkBackExactly(pages: seq<Page>, db: Database, k: Key, cursor: Cursor)
    requires Typed([k]) && Serves(db, [k]) && DirectionOf(k) == Backward && WalkBack(pages, db, k, cursor)
    ensures EdgesBack(pages) == Reverse(ChildrenPast(db, k, cursor)) <==> WalkWithoutGap(pages, db, k, cursor)
  {
    var legs := LegsOf(pages, db, k, cursor, |pages|);
    LegsAreChain(pages, db, k, cursor, legs);
    ChainExactly(pages, legs, PageSize(k) + 1);
  }

  /** Following start cursors from the start while there is a previous page comes to an end. It lists each
      of the parent's own and system children exactly once, in order, exactly when no page shows a child
      past one it does not show; without a system column none does. */
  lemma {:induction false} PagingBackwardExactly(db: Database, k: Key)
    requires Typed([k]) && Serves(db, [k]) && DirectionOf(k) == Backward
    ensures exists pages :: WalkBack(pages, db, k, Start)
    ensures forall pages :: WalkBack(pages, db, k, Start) ==>
              (EdgesBack(pages) == Reverse(PlainChildren(db(QueryOf(k)), k.shared, k.parent))
               <==> WalkWithoutGap(pages, db, k, Start))
    ensures !k.shared ==> forall pages :: WalkBack(pages, db, k, Start) ==>
              EdgesBack(pages) == Reverse(PlainChildren(db(QueryOf(k)), k.shared, k.parent))
  {
    SeekFromStart(db(QueryOf(k)));
    var pages := WalkBackEnds(db, k, Start);
    forall pages | WalkBack(pages, db, k, Start)
      ensures EdgesBack(pages) == Reverse(PlainChildren(db(QueryOf(k)), k.shared, k.parent))
              <==> WalkWithoutGap(pages, db, k, Start)
      ensures !k.shared ==> WalkWithoutGap(pages, db, k, Start)
    {
      WalkBackExactly(pages, db, k, Start);
      if !k.shared {
        OwnWalkWithoutGap(pages, db, k, Start);
      }
    }
  }

  // ----- a lost child

  // Three own children of p and after them a system child of another group.
  ghost predicate ThreeOwnOneSystem(rows: seq<Row>, p: ParentId, q: ParentId) {
    && |rows| == 4 && p != q
    && rows[0] == Row(p, Entity("1", 1, false)) && rows[1] == Row(p, Entity("22", 2, false))
    && rows[2] == Row(p, Entity("333", 3, false)) && rows[3] == Row(q, Entity("4444", 4, true))
  }

  lemma ThreeOwnOneSystemRows(rows: seq<Row>, p: ParentId, q: ParentId)
    requires ThreeOwnOneSystem(rows, p, q)
    ensures WellFormed(rows)
    ensures forall r :: r in rows <==> r == rows[0] || r == rows[1] || r == rows[2] || r == rows[3]
  {
    forall i | 0 <= i < 4 ensures |rows[i].child.id| == i + 1 && rows[i].child.key == i + 1 {
    }
    forall r, s | r in rows && s in rows && (r.child.id == s.child.id || r.child.key == s.child.key)
      ensures r.child == s.child
    {
      var i, j :| 0 <= i < 4 && 0 <= j < 4 && rows[i] == r && rows[j] == s;
      assert i == j;
    }
  }

  lemma PlainOfFour(v: View, q: ParentId)
    requires v.Valid() && v.shared && ThreeOwnOneSystem(v.Past(), v.p, q)
    ensures v.Plain() == [v.Past()[0].child, v.Past()[1].child, v.Past()[2].child, v.Past()[3].child]
  {
    var rows := v.Past();
    var es := [rows[0].child, rows[1].child, rows[2].child, rows[3].child];
    ThreeOwnOneSystemRows(rows, v.p, q);
    PlainMeaning(rows, true, v.p);
    forall e ensures e in es <==> exists r :: r in rows && VisibleTo(r, v.p, true) && r.child == e {
      assert e == rows[0].child ==> rows[0] in rows && rows[0].child == e;
      assert e == rows[1].child ==> rows[1] in rows && rows[1].child == e;
      assert e == rows[2].child ==> rows[2] in rows && rows[2].child == e;
      assert e == rows[3].child ==> rows[3] in rows && rows[3].child == e;
    }
    SameElements(v.Plain(), es);
  }

  // Cut to two a group, the third own child is not shown, and the system child is.
  lemma FourShown(v: View, q: ParentId)
    requires v.Valid() && v.shared && v.n == 2 && ThreeOwnOneSystem(v.Past(), v.p, q)
    ensures !v.Shows(v.Past()[2].child) && v.Shows(v.Past()[3].child)
  {
    var rows, fetched := v.Past(), v.Fetched();
    ThreeOwnOneSystemRows(rows, v.p, q);
    forall r ensures r in fetched <==> r in rows {
      if r in rows { FetchedVisible(v, r); } else { FetchedIsPast(v, r); }
    }
    var own := [rows[0].child, rows[1].child, rows[2].child];
    assert rows[0] in fetched && rows[1] in fetched && rows[2] in fetched && rows[3] in fetched;
    RankAtLeast(fetched, rows[2], own);
    RankBound(fetched, rows[3], [rows[3].child], 0);
    assert v.Ranked(rows[3]);
    forall r | r in fetched && r.child == rows[2].child ensures r == rows[2] {
    }
  }

  /** Going backwards, a child can be on no page: the third own child of a parent with a system child
      after it, for a page size of one. */
  lemma PagingBackwardCanLoseChild(k: Key, db: Database, q: ParentId, pages: seq<Page>)
    requires Typed([k]) && k.shared && |q| == |k.pivots| && ThreeOwnOneSystem(db(QueryOf(k)), k.parent, q)
    requires k.args.direction == Some(Backward) && k.args.count == Some(1) && WalkBack(pages, db, k, Start)
    ensures Serves(db, [k])
    ensures Entity("333", 3, false) in PlainChildren(db(QueryOf(k)), true, k.parent)
    ensures Entity("333", 3, false) !in EdgesBack(pages)
  {
    var v := ViewAt(db, k, Start);
    ThreeOwnOneSystemRows(db(QueryOf(k)), k.parent, q);
    ViewFrom(db, k, Start);
    FourInView(db, k, q);
    LostBetween(pages, db, k, v);
  }

  lemma FourInView(db: Database, k: Key, q: ParentId)
    requires k.shared && k.args.count == Some(1) && ThreeOwnOneSystem(db(QueryOf(k)), k.parent, q)
    requires ViewAt(db, k, Start).Valid()
    ensures var v := ViewAt(db, k, Start);
            && |v.Plain()| == 4 && !v.Shows(v.Plain()[2]) && v.Shows(v.Plain()[3])
            && v.Plain()[2] == Entity("333", 3, false)
            && v.Plain() == PlainChildren(db(QueryOf(k)), true, k.parent)
  {
    SeekFromStart(db(QueryOf(k)));
    assert QueryOf(KeyAt(k, Start)) == QueryOf(k);
    FourOfView(ViewAt(db, k, Start), q);
  }

  lemma FourOfView(v: View, q: ParentId)
    requires v.Valid() && v.shared && v.n == 2 && ThreeOwnOneSystem(v.Past(), v.p, q)
    ensures |v.Plain()| == 4 && !v.Shows(v.Plain()[2]) && v.Shows(v.Plain()[3])
    ensures v.Plain()[2] == Entity("333", 3, false)
  {
    PlainOfFour(v, q);
    FourShown(v, q);
  }

  lemma LostBetween(pages: seq<Page>, db: Database, k: Key, v: View)
    requires Typed([k]) && Serves(db, [k]) && DirectionOf(k) == Backward && WalkBack(pages, db, k, Start)
    requires v == ViewAt(db, k, Start) && |v.Plain()| == 4 && !v.Shows(v.Plain()[2]) && v.Shows(v.Plain()[3])
    ensures v.Plain()[2] !in EdgesBack(pages)
  {
    var legs := LegsOf(pages, db, k, Start, |pages|);
    LegsAreChain(pages, db, k, Start, legs);
    assert IsLegAt(legs, pages, db, k, Start, 0);
    ViewFrom(db, k, Start);
    ShownWithinPlain(v);
    assert v.ShowsAt(3) && !v.ShowsAt(2);
    LostAtGap(pages, legs, PageSize(k) + 1, 2, 3);
  }
}
