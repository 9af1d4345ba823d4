/**
 The batch function of child connection dataloaders: keys are grouped into requests, every
 request reads its counts and its children once for all of its parents, and the answers are
 scattered back to the positions of the keys.
 */
module ChildConnectionLoader {
  import opened Collections
  import opened ChildRelation
  import opened ConnectionKeys

  datatype Result<+T> = Ok(value: T) | CannotFilterByParent

  // ----- specification

  // The keys that share a request, in order.
  function Group(keys: seq<Key>, id: RequestId): (g: seq<Key>)
    ensures forall k :: k in g ==> k in keys && RequestIdentifier(k) == id
    ensures forall k :: k in keys && RequestIdentifier(k) == id ==> k in g
  {
    if keys == [] then []
    else
      var rest := Group(keys[..|keys| - 1], id);
      var k := keys[|keys| - 1];
      if RequestIdentifier(k) == id then rest + [k] else rest
  }

  function Parents(keys: seq<Key>): (ps: seq<ParentId>)
    ensures |ps| == |keys|
    ensures forall k :: k in keys ==> k.parent in ps
  {
    if keys == [] then [] else Parents(keys[..|keys| - 1]) + [keys[|keys| - 1].parent]
  }

  function OwnIds(base: seq<Row>, p: ParentId): set<string> {
    set r | r in base && r.pivot == p :: r.child.id
  }

  function SystemPairs(base: seq<Row>): set<(ParentId, string)> {
    set r | r in base && r.child.system :: (r.pivot, r.child.id)
  }

  function TotalFor(base: seq<Row>, shared: bool, p: ParentId): nat {
    |OwnIds(base, p)| + if shared then |SystemPairs(base)| else 0
  }

  // The children a request collects for parent p before its page is cut.
  function ChildrenFor(base: seq<Row>, cursor: Cursor, n: nat, shared: bool, p: ParentId): seq<Entity> {
    Distinct(Visible(Window(Seek(base, cursor), n), p, shared))
  }

  // What a request over the given rows and parents answers for parent p.
  function ResponseOf(rows: seq<Row>, cursor: Cursor, pageSize: nat, direction: Direction, includeTotalCount: bool,
                      shared: bool, parents: seq<ParentId>, p: ParentId): Response
    requires pageSize > 0
  {
    var base := Where(rows, parents, shared);
    var children := ChildrenFor(base, cursor, pageSize + 1, shared, p);
    var total := if includeTotalCount then Some(TotalFor(base, shared, p)) else None;
    Response(total, PageOf(children, pageSize, cursor, GetOr(total, 0), direction))
  }

  // What the request with the settings of k, made for the given parents, answers for parent p.
  function ResponseFor(db: Database, k: Key, parents: seq<ParentId>, p: ParentId): Response {
    ResponseOf(db(QueryOf(k)), k.args.cursor, PageSize(k), DirectionOf(k), k.includeTotalCount, k.shared, parents, p)
  }

  function Answer(keys: seq<Key>, db: Database, i: nat): Response
    requires i < |keys|
  {
    var group := Group(keys, RequestIdentifier(keys[i]));
    ResponseFor(db, group[0], Parents(group), keys[i].parent)
  }

  // What a parent's own rows count to: the children of whichever of its groups is counted last, its
  // system rows or the others, and nothing without rows.
  ghost predicate OwnCount(base: seq<Row>, shared: bool, p: ParentId, own: nat) {
    if exists r :: r in base && r.pivot == p
    then exists r :: r in base && r.pivot == p && own == |GroupIds(base, shared, p, SystemColumn(r, shared))|
    else own == 0
  }

  function SystemCount(base: seq<Row>, shared: bool): nat {
    if shared then |SystemPairs(base)| else 0
  }

  // A total the request may give, by the order its groups come in.
  ghost predicate PossibleTotal(base: seq<Row>, shared: bool, p: ParentId, total: nat) {
    total >= SystemCount(base, shared) && OwnCount(base, shared, p, total - SystemCount(base, shared))
  }

  // A response the request with the settings of k, made for the given parents, may give parent p.
  ghost predicate IsResponse(db: Database, k: Key, parents: seq<ParentId>, p: ParentId, r: Response) {
    var base := Where(db(QueryOf(k)), parents, k.shared);
    && (r.totalCount.Some? <==> k.includeTotalCount)
    && (r.totalCount.Some? ==> PossibleTotal(base, k.shared, p, r.totalCount.value))
    && r.page == PageOf(ChildrenFor(base, k.args.cursor, PageSize(k) + 1, k.shared, p), PageSize(k), k.args.cursor,
                        GetOr(r.totalCount, 0), DirectionOf(k))
  }

  // A response the batch may give its i-th key.
  ghost predicate IsAnswer(keys: seq<Key>, db: Database, i: nat, r: Response)
    requires i < |keys|
  {
    var group := Group(keys, RequestIdentifier(keys[i]));
    IsResponse(db, group[0], Parents(group), keys[i].parent, r)
  }

  // The answers of a batch, one per key.
  function Answers(keys: seq<Key>, db: Database): (answers: seq<Response>)
    ensures |answers| == |keys|
  {
    seq(|keys|, i requires 0 <= i < |keys| => Answer(keys, db, i))
  }

  // ----- counts

  datatype CountRow = CountRow(pivot: ParentId, system: Option<bool>, count: nat)

  function SystemColumn(r: Row, shared: bool): Option<bool> {
    if shared then Some(r.child.system) else None
  }

  function GroupIds(base: seq<Row>, shared: bool, pivot: ParentId, system: Option<bool>): set<string> {
    set r | r in base && r.pivot == pivot && SystemColumn(r, shared) == system :: r.child.id
  }

  function GroupOf(r: Row, shared: bool): (ParentId, Option<bool>) {
    (r.pivot, SystemColumn(r, shared))
  }

  ghost predicate GroupsOf(groups: seq<(ParentId, Option<bool>)>, base: seq<Row>, shared: bool) {
    && NoDuplicates(groups)
    && (forall r :: r in base ==> GroupOf(r, shared) in groups)
    && (forall g :: g in groups ==> exists r :: r in base && GroupOf(r, shared) == g)
  }

  // The groups the counts are of.
  ghost function GroupsIn(counts: seq<CountRow>): (groups: seq<(ParentId, Option<bool>)>) {
    seq(|counts|, i requires 0 <= i < |counts| => (counts[i].pivot, counts[i].system))
  }

  // One count for every group that has rows, of the distinct children in it.
  ghost predicate Counts(counts: seq<CountRow>, base: seq<Row>, shared: bool) {
    && GroupsOf(GroupsIn(counts), base, shared)
    && forall i :: 0 <= i < |counts| ==> counts[i].count == |GroupIds(base, shared, counts[i].pivot, counts[i].system)|
  }

  // SELECT pivot, COUNT(DISTINCT child) GROUP BY pivot, and the system column when it is shared.
  // The database returns the groups in no particular order.
  method GroupCounts(base: seq<Row>, shared: bool) returns (counts: seq<CountRow>)
    ensures Counts(counts, base, shared)
  {
    var groups := InSomeOrder(set r | r in base :: GroupOf(r, shared));
    counts := seq(|groups|, i requires 0 <= i < |groups| =>
      CountRow(groups[i].0, groups[i].1, |GroupIds(base, shared, groups[i].0, groups[i].1)|));
    assert GroupsIn(counts) == groups;
  }

  lemma PureGroup(base: seq<Row>, shared: bool, r: Row)
    requires r in base
    requires shared ==> SystemGroupsPure(base)
    ensures GroupIds(base, shared, r.pivot, SystemColumn(r, shared)) == OwnIds(base, r.pivot)
  {
  }

  // Each requested parent takes the count of its group; a parent without rows keeps 0.
  method OwnTotals(base: seq<Row>, shared: bool, parents: set<ParentId>, counts: seq<CountRow>)
    returns (totals: map<ParentId, nat>)
    requires Counts(counts, base, shared)
    ensures totals.Keys == parents
    ensures forall p :: p in parents ==> OwnCount(base, shared, p, totals[p])
    ensures (shared ==> SystemGroupsPure(base)) ==> forall p :: p in parents ==> totals[p] == |OwnIds(base, p)|
  {
    totals := map p | p in parents :: 0;
    for j := 0 to |counts|
      invariant totals.Keys == parents
      invariant forall p :: p in parents ==> LastCount(counts, j, p, totals[p])
    {
      if counts[j].pivot in totals {
        totals := totals[counts[j].pivot := counts[j].count];
      }
    }
    forall p | p in parents ensures OwnCount(base, shared, p, totals[p]) {
      LastCountIsOwn(base, shared, counts, p, totals[p]);
    }
    PureTotals(base, shared, parents, totals);
  }

  lemma PureTotals(base: seq<Row>, shared: bool, parents: set<ParentId>, totals: map<ParentId, nat>)
    requires parents <= totals.Keys && forall p :: p in parents ==> OwnCount(base, shared, p, totals[p])
    ensures (shared ==> SystemGroupsPure(base)) ==> forall p :: p in parents ==> totals[p] == |OwnIds(base, p)|
  {
    if shared ==> SystemGroupsPure(base) {
      forall p | p in parents ensures totals[p] == |OwnIds(base, p)| {
        PureOwnCount(base, shared, p, totals[p]);
      }
    }
  }

  // What a parent holds after j counts were read.
  ghost predicate LastCount(counts: seq<CountRow>, j: nat, p: ParentId, total: nat)
    requires j <= |counts|
  {
    if exists i :: 0 <= i < j && counts[i].pivot == p
    then exists i :: 0 <= i < j && counts[i].pivot == p && counts[i].count == total
    else total == 0
  }

  lemma LastCountIsOwn(base: seq<Row>, shared: bool, counts: seq<CountRow>, p: ParentId, total: nat)
    requires Counts(counts, base, shared) && LastCount(counts, |counts|, p, total)
    ensures OwnCount(base, shared, p, total)
  {
    var groups := GroupsIn(counts);
    if i :| 0 <= i < |counts| && counts[i].pivot == p {
      var c :| 0 <= c < |counts| && counts[c].pivot == p && counts[c].count == total;
      assert groups[c] in groups;
      var r :| r in base && GroupOf(r, shared) == groups[c];
      assert r.pivot == p;
    } else {
      forall r | r in base ensures r.pivot != p {
        assert GroupOf(r, shared) in groups;
      }
    }
  }

  // Where no group mixes system rows with others, the count is that of the parent's distinct children.
  lemma PureOwnCount(base: seq<Row>, shared: bool, p: ParentId, own: nat)
    requires shared ==> SystemGroupsPure(base)
    ensures OwnCount(base, shared, p, own) <==> own == |OwnIds(base, p)|
  {
    if r :| r in base && r.pivot == p {
      forall r | r in base && r.pivot == p
        ensures GroupIds(base, shared, p, SystemColumn(r, shared)) == OwnIds(base, p)
      {
        PureGroup(base, shared, r);
      }
    } else {
      assert OwnIds(base, p) == {};
    }
  }

  // ----- system totals

  // The (pivot, id) pairs of the system rows in the first j groups.
  ghost function PairsUpTo(base: seq<Row>, groups: seq<(ParentId, Option<bool>)>, j: nat): set<(ParentId, string)>
    requires j <= |groups|
  {
    set r | r in base && r.child.system && GroupOf(r, true) in groups[..j] :: (r.pivot, r.child.id)
  }

  function PairsOf(p: ParentId, ids: set<string>): set<(ParentId, string)> {
    set id | id in ids :: (p, id)
  }

  lemma {:induction false} PairCount(p: ParentId, ids: set<string>)
    ensures |PairsOf(p, ids)| == |ids|
  {
    if ids == {} {
      assert PairsOf(p, ids) == {};
    } else {
      var id :| id in ids;
      PairCount(p, ids - {id});
      assert PairsOf(p, ids) == PairsOf(p, ids - {id}) + {(p, id)};
    }
  }

  lemma PairsGrow(base: seq<Row>, groups: seq<(ParentId, Option<bool>)>, j: nat)
    requires j < |groups|
    ensures PairsUpTo(base, groups, j + 1)
         == PairsUpTo(base, groups, j)
          + if groups[j].1 == Some(true) then PairsOf(groups[j].0, GroupIds(base, true, groups[j].0, groups[j].1))
              else {}
  {
    assert groups[..j + 1] == groups[..j] + [groups[j]];
  }

  lemma PairsDisjoint(base: seq<Row>, groups: seq<(ParentId, Option<bool>)>, j: nat, ids: set<string>)
    requires NoDuplicates(groups) && j < |groups| && groups[j].1 == Some(true)
    ensures PairsUpTo(base, groups, j) !! PairsOf(groups[j].0, ids)
  {
  }

  lemma PairsStep(base: seq<Row>, groups: seq<(ParentId, Option<bool>)>, j: nat)
    requires NoDuplicates(groups) && j < |groups|
    ensures |PairsUpTo(base, groups, j + 1)|
         == |PairsUpTo(base, groups, j)|
          + if groups[j].1 == Some(true) then |GroupIds(base, true, groups[j].0, groups[j].1)| else 0
  {
    PairsGrow(base, groups, j);
    if groups[j].1 == Some(true) {
      var ids := GroupIds(base, true, groups[j].0, groups[j].1);
      PairsDisjoint(base, groups, j, ids);
      PairCount(groups[j].0, ids);
    }
  }

  method SystemTotal(base: seq<Row>, counts: seq<CountRow>) returns (total: nat)
    requires Counts(counts, base, true)
    ensures total == |SystemPairs(base)|
  {
    total := 0;
    ghost var groups := GroupsIn(counts);
    assert PairsUpTo(base, groups, 0) == {};
    for j := 0 to |counts|
      invariant total == |PairsUpTo(base, groups, j)|
    {
      PairsStep(base, groups, j);
      if counts[j].system == Some(true) {
        total := total + counts[j].count;
      }
    }
    assert groups[..|groups|] == groups;
    assert PairsUpTo(base, groups, |groups|) == SystemPairs(base);
  }

  // The total of every parent: its own group's count, then every system count on top.
  method TotalCounts(base: seq<Row>, shared: bool, parents: set<ParentId>) returns (totals: map<ParentId, nat>)
    ensures totals.Keys == parents
    ensures forall p :: p in parents ==> PossibleTotal(base, shared, p, totals[p])
    ensures (shared ==> SystemGroupsPure(base)) ==> forall p :: p in parents ==> totals[p] == TotalFor(base, shared, p)
  {
    var counts := GroupCounts(base, shared);
    totals := OwnTotals(base, shared, parents, counts);
    if shared {
      var total := SystemTotal(base, counts);
      totals := map p | p in totals :: totals[p] + total;
    }
  }

  // ----- children

  method AddChild(children: map<ParentId, seq<Entity>>, p: ParentId, child: Entity)
    returns (added: map<ParentId, seq<Entity>>)
    ensures added.Keys == children.Keys + {p}
    ensures forall q :: q in children && q != p ==> added[q] == children[q]
    ensures p !in children ==> added[p] == []
    ensures p in children ==> added[p] == if HasId(children[p], child.id) then children[p] else children[p] + [child]
  {
    added := children;
    if p !in children {
      // an unrequested parent gets an empty entry, and the child is dropped
      added := added[p := []];
    } else if !HasId(children[p], child.id) {
      added := added[p := children[p] + [child]];
    }
  }

  method AddToAll(children: map<ParentId, seq<Entity>>, child: Entity) returns (added: map<ParentId, seq<Entity>>)
    ensures added.Keys == children.Keys
    ensures forall q :: q in children ==>
              added[q] == if HasId(children[q], child.id) then children[q] else children[q] + [child]
  {
    added := children;
    var todo := children.Keys;
    while todo != {}
      invariant todo <= children.Keys == added.Keys
      invariant forall q :: q in todo ==> added[q] == children[q]
      invariant forall q :: q in children && q !in todo ==>
                  added[q] == if HasId(children[q], child.id) then children[q] else children[q] + [child]
      decreases |todo|
    {
      var p :| p in todo;
      added := AddChild(added, p, child);
      todo := todo - {p};
    }
  }

  // Rows are handed to their pivot's parent, system rows of a shared query to every parent.
  method CollectChildren(rows: seq<Row>, shared: bool, parents: set<ParentId>)
    returns (children: map<ParentId, seq<Entity>>)
    ensures parents <= children.Keys
    ensures forall p :: p in parents ==> children[p] == Distinct(Visible(rows, p, shared))
  {
    children := map p | p in parents :: [];
    for i := 0 to |rows|
      invariant parents <= children.Keys
      invariant forall p :: p in parents ==> children[p] == Distinct(Visible(rows[..i], p, shared))
    {
      var r := rows[i];
      ghost var before := children;
      if shared && r.child.system {
        children := AddToAll(children, r.child);
      } else {
        children := AddChild(children, r.pivot, r.child);
      }
      assert rows[..i + 1] == rows[..i] + [r];
      forall p | p in parents ensures children[p] == Distinct(Visible(rows[..i + 1], p, shared)) {
        StepChildren(rows[..i], r, p, shared);
      }
    }
    assert rows[..|rows|] == rows;
  }

  lemma StepChildren(rows: seq<Row>, r: Row, p: ParentId, shared: bool)
    ensures Distinct(Visible(rows + [r], p, shared))
         == if VisibleTo(r, p, shared) && !HasId(Distinct(Visible(rows, p, shared)), r.child.id)
            then Distinct(Visible(rows, p, shared)) + [r.child]
            else Distinct(Visible(rows, p, shared))
  {
    assert (rows + [r])[..|rows|] == rows;
    var v := Visible(rows, p, shared);
    if VisibleTo(r, p, shared) {
      assert (v + [r.child])[..|v|] == v;
    }
  }

  // ----- requests

  datatype ChildRequest = ChildRequest(key: Key, parents: seq<ParentId>)

  lemma GroupAppend(keys: seq<Key>, k: Key, id: RequestId)
    ensures Group(keys + [k], id) == if RequestIdentifier(k) == id then Group(keys, id) + [k] else Group(keys, id)
  {
    assert (keys + [k])[..|keys|] == keys;
  }

  lemma ParentsAppend(keys: seq<Key>, k: Key)
    ensures Parents(keys + [k]) == Parents(keys) + [k.parent]
  {
    assert (keys + [k])[..|keys|] == keys;
  }

  function RequestOf(group: seq<Key>): ChildRequest
    requires group != []
  {
    ChildRequest(group[0], Parents(group))
  }

  lemma RequestAppend(group: seq<Key>, k: Key)
    ensures RequestOf(group + [k])
         == if group == [] then ChildRequest(k, [k.parent])
            else ChildRequest(group[0], Parents(group) + [k.parent])
  {
    ParentsAppend(group, k);
    assert (group + [k])[0] == if group == [] then k else group[0];
  }

  ghost predicate Grouped(requests: map<RequestId, ChildRequest>, keys: seq<Key>, id: RequestId) {
    if Group(keys, id) == [] then id !in requests
    else id in requests && requests[id] == RequestOf(Group(keys, id))
  }

  function AddKey(requests: map<RequestId, ChildRequest>, id: RequestId, k: Key): map<RequestId, ChildRequest> {
    if id in requests then requests[id := requests[id].(parents := requests[id].parents + [k.parent])]
    else requests[id := ChildRequest(k, [k.parent])]
  }

  lemma GroupedStep(requests: map<RequestId, ChildRequest>, keys: seq<Key>, k: Key, id: RequestId)
    requires Grouped(requests, keys, id)
    ensures Grouped(AddKey(requests, RequestIdentifier(k), k), keys + [k], id)
  {
    GroupAppend(keys, k, id);
    RequestAppend(Group(keys, id), k);
  }

  method GroupByRequest(keys: seq<Key>) returns (requests: map<RequestId, ChildRequest>)
    ensures forall id :: Grouped(requests, keys, id)
  {
    requests := map[];
    for i := 0 to |keys|
      invariant forall id :: Grouped(requests, keys[..i], id)
    {
      var before, k := requests, keys[i];
      requests := AddKey(before, RequestIdentifier(k), k);
      ghost var prefix := keys[..i + 1];
      assert prefix == keys[..i] + [k];
      forall id ensures Grouped(requests, prefix, id) {
        GroupedStep(before, keys[..i], k, id);
      }
    }
    assert keys[..|keys|] == keys;
  }

  method ResolveRequest(request: ChildRequest, db: Database) returns (result: Result<map<ParentId, Response>>)
    ensures result.Ok? <==> !FiltersByParent(request.key)
    ensures result.Ok? ==> Resolved(request, db, result.value)
  {
    var k := request.key;
    for i := 0 to |k.filterKeys|
      invariant forall f :: f in k.filterKeys[..i] ==> !HasProperty(f, k.args.filter)
    {
      if HasProperty(k.filterKeys[i], k.args.filter) {
        return CannotFilterByParent;
      }
    }
    var parents := set p | p in request.parents;
    var base := Where(db(QueryOf(k)), request.parents, k.shared);
    var totals: map<ParentId, nat> := map[];
    if k.includeTotalCount {
      totals := TotalCounts(base, k.shared, parents);
    }
    var fetched := Window(Seek(base, k.args.cursor), PageSize(k) + 1);
    var children := CollectChildren(fetched, k.shared, parents);
    var responses := Respond(k, parents, children, totals);
    result := Ok(responses);
  }

  // Every requested parent gets its total and the page of its children; others are passed over.
  method Respond(k: Key, parents: set<ParentId>, children: map<ParentId, seq<Entity>>, totals: map<ParentId, nat>)
    returns (responses: map<ParentId, Response>)
    requires parents <= children.Keys && (k.includeTotalCount ==> parents <= totals.Keys)
    ensures responses.Keys == parents
    ensures forall p :: p in parents ==>
              responses[p].totalCount == if k.includeTotalCount then Some(totals[p]) else None
    ensures forall p :: p in parents ==>
              responses[p].page == PageOf(children[p], PageSize(k), k.args.cursor, GetOr(responses[p].totalCount, 0),
                                          DirectionOf(k))
  {
    responses := map[];
    var todo := children.Keys;
    while todo != {}
      invariant todo <= children.Keys
      invariant responses.Keys == parents - todo
      invariant forall p :: p in responses ==>
                  responses[p].totalCount == if k.includeTotalCount then Some(totals[p]) else None
      invariant forall p :: p in responses ==>
                  responses[p].page == PageOf(children[p], PageSize(k), k.args.cursor,
                                              GetOr(responses[p].totalCount, 0), DirectionOf(k))
      decreases |todo|
    {
      var p :| p in todo;
      todo := todo - {p};
      if p in parents {
        var total := if k.includeTotalCount then Some(totals[p]) else None;
        var page := PageOf(children[p], PageSize(k), k.args.cursor, GetOr(total, 0), DirectionOf(k));
        responses := responses[p := Response(total, page)];
      }
    }
  }

  // The counts of a shared query are told apart by pivot alone, so a total is exact when no pivot
  // group mixes system rows with others.
  ghost predicate TotalsAreExact(k: Key, db: Database) {
    k.includeTotalCount && k.shared ==> SystemGroupsPure(db(QueryOf(k)))
  }

  ghost predicate Resolved(request: ChildRequest, db: Database, responses: map<ParentId, Response>) {
    && (forall p :: p in responses <==> p in request.parents)
    && (forall p :: p in responses ==> IsResponse(db, request.key, request.parents, p, responses[p]))
  }

  /** With exact totals there is one response. */
  lemma ExactResponse(db: Database, k: Key, parents: seq<ParentId>, p: ParentId, r: Response)
    requires TotalsAreExact(k, db)
    ensures IsResponse(db, k, parents, p, r) <==> r == ResponseFor(db, k, parents, p)
  {
    if k.includeTotalCount {
      PureWhere(db(QueryOf(k)), parents, k.shared);
      PureTotal(Where(db(QueryOf(k)), parents, k.shared), k.shared, p, GetOr(r.totalCount, 0));
    }
  }

  lemma PureWhere(rows: seq<Row>, parents: seq<ParentId>, shared: bool)
    ensures SystemGroupsPure(rows) ==> SystemGroupsPure(Where(rows, parents, shared))
  {
    forall r ensures r in Where(rows, parents, shared) ==> r in rows { WhereMembers(rows, parents, shared, r); }
  }

  lemma PureTotal(base: seq<Row>, shared: bool, p: ParentId, total: nat)
    requires shared ==> SystemGroupsPure(base)
    ensures PossibleTotal(base, shared, p, total) <==> total == TotalFor(base, shared, p)
  {
    if total >= SystemCount(base, shared) {
      PureOwnCount(base, shared, p, total - SystemCount(base, shared));
    }
  }

  /** A forward page does not depend on the total, so it is the same in every response. */
  lemma ForwardResponse(db: Database, k: Key, parents: seq<ParentId>, p: ParentId, r: Response)
    requires IsResponse(db, k, parents, p, r) && DirectionOf(k) == Forward
    ensures r.page == ResponseFor(db, k, parents, p).page
  {
  }

  // All requests are resolved independently; one that fails makes the batch fail.
  method ResolveAll(requests: map<RequestId, ChildRequest>, db: Database)
    returns (results: Result<map<RequestId, map<ParentId, Response>>>)
    ensures results.Ok? <==> forall id :: id in requests ==> !FiltersByParent(requests[id].key)
    ensures results.Ok? ==> results.value.Keys == requests.Keys
    ensures results.Ok? ==> forall id :: id in requests ==> Resolved(requests[id], db, results.value[id])
  {
    var done: map<RequestId, map<ParentId, Response>> := map[];
    var todo := requests.Keys;
    while todo != {}
      invariant todo <= requests.Keys
      invariant done.Keys == requests.Keys - todo
      invariant forall id :: id in done ==> !FiltersByParent(requests[id].key)
      invariant forall id :: id in done ==> Resolved(requests[id], db, done[id])
      decreases |todo|
    {
      var id :| id in todo;
      var r := ResolveRequest(requests[id], db);
      if r.CannotFilterByParent? {
        return CannotFilterByParent;
      }
      done, todo := done[id := r.value], todo - {id};
    }
    results := Ok(done);
  }

  lemma KeyHasRequest(keys: seq<Key>, requests: map<RequestId, ChildRequest>, k: Key)
    requires k in keys && Grouped(requests, keys, RequestIdentifier(k))
    ensures RequestIdentifier(k) in requests &&
              requests[RequestIdentifier(k)] == RequestOf(Group(keys, RequestIdentifier(k)))
    ensures k.parent in requests[RequestIdentifier(k)].parents
    ensures requests[RequestIdentifier(k)].key in keys
  {
    assert k in Group(keys, RequestIdentifier(k));
    assert Group(keys, RequestIdentifier(k))[0] in Group(keys, RequestIdentifier(k));
  }

  lemma AcceptedIfResolved(keys: seq<Key>, requests: map<RequestId, ChildRequest>)
    requires forall id :: Grouped(requests, keys, id)
    ensures Accepted(keys) <==> forall id :: id in requests ==> !FiltersByParent(requests[id].key)
  {
    forall k | k in keys ensures RequestIdentifier(k) in requests
                              && requests[RequestIdentifier(k)].key == Group(keys, RequestIdentifier(k))[0] {
      assert Grouped(requests, keys, RequestIdentifier(k));
      KeyHasRequest(keys, requests, k);
    }
    forall id | id in requests ensures exists k :: k in keys && RequestIdentifier(k) == id {
      assert Grouped(requests, keys, id);
      assert Group(keys, id)[0] in Group(keys, id);
    }
  }

  ghost predicate AllResolved(requests: map<RequestId, ChildRequest>, db: Database,
                              results: map<RequestId, map<ParentId, Response>>) {
    requests.Keys == results.Keys && forall id :: id in requests ==> Resolved(requests[id], db, results[id])
  }

  predicate Has(results: map<RequestId, map<ParentId, Response>>, k: Key) {
    RequestIdentifier(k) in results && k.parent in results[RequestIdentifier(k)]
  }

  function Lookup(results: map<RequestId, map<ParentId, Response>>, k: Key): Response
    requires Has(results, k)
  {
    results[RequestIdentifier(k)][k.parent]
  }

  lemma {:induction false} LookupIsAnswer(keys: seq<Key>, db: Database, i: nat, requests: map<RequestId, ChildRequest>,
                       results: map<RequestId, map<ParentId, Response>>)
    requires i < |keys| && Grouped(requests, keys, RequestIdentifier(keys[i]))
    requires AllResolved(requests, db, results)
    ensures Has(results, keys[i])
    ensures IsAnswer(keys, db, i, Lookup(results, keys[i]))
    ensures AllTotalsAreExact(keys, db) ==> Lookup(results, keys[i]) == Answer(keys, db, i)
  {
    var id := RequestIdentifier(keys[i]);
    KeyHasRequest(keys, requests, keys[i]);
    assert Resolved(requests[id], db, results[id]);
    if AllTotalsAreExact(keys, db) {
      ExactResponse(db, requests[id].key, requests[id].parents, keys[i].parent, Lookup(results, keys[i]));
    }
  }

  method Scatter(keys: seq<Key>, results: map<RequestId, map<ParentId, Response>>) returns (answers: seq<Response>)
    requires forall k :: k in keys ==> Has(results, k)
    ensures |answers| == |keys|
    ensures forall i :: 0 <= i < |keys| ==> answers[i] == Lookup(results, keys[i])
  {
    answers := [];
    for i := 0 to |keys|
      invariant |answers| == i
      invariant forall j :: 0 <= j < i ==> answers[j] == Lookup(results, keys[j])
    {
      answers := answers + [Lookup(results, keys[i])];
    }
  }

  /** One answer per key, in the order of the keys; the whole batch fails when a request filters
      by its parent column. */
  method LoadChildConnections(keys: seq<Key>, db: Database) returns (result: Result<seq<Response>>)
    ensures result.Ok? <==> Accepted(keys)
    ensures result.Ok? ==> |result.value| == |keys|
    ensures result.Ok? ==> forall i :: 0 <= i < |keys| ==> IsAnswer(keys, db, i, result.value[i])
    ensures result.Ok? && AllTotalsAreExact(keys, db) ==> result.value == Answers(keys, db)
  {
    if keys == [] {
      return Ok([]);
    }
    var requests := GroupByRequest(keys);
    var results := ResolveAll(requests, db);
    AcceptedIfResolved(keys, requests);
    if results.CannotFilterByParent? {
      return CannotFilterByParent;
    }
    forall i | 0 <= i < |keys|
      ensures Has(results.value, keys[i]) && IsAnswer(keys, db, i, Lookup(results.value, keys[i]))
           && (AllTotalsAreExact(keys, db) ==> Lookup(results.value, keys[i]) == Answer(keys, db, i)) {
      LookupIsAnswer(keys, db, i, requests, results.value);
    }
    var answers := Scatter(keys, results.value);
    result := Ok(answers);
  }

  // No request, taken with the settings of its first key, filters by a parent column.
  ghost predicate Accepted(keys: seq<Key>) {
    forall k :: k in keys ==> !FiltersByParent(Group(keys, RequestIdentifier(k))[0])
  }

  ghost predicate AllTotalsAreExact(keys: seq<Key>, db: Database) {
    forall k :: k in keys ==> TotalsAreExact(k, db)
  }
}
