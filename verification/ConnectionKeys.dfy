/**
 Dataloader keys of a child connection, the identifier that groups them into requests, and the
 page a request builds from a list of children.
 */
module ConnectionKeys {
  import opened Collections
  import opened ChildRelation

  const MAX_PAGE_SIZE := 50

  // ----- filters are JSON values

  datatype Json = Text(text: string) | Number(number: int) | Flag(flag: bool)
                | Array(items: seq<Json>) | Object(fields: map<string, Json>)

  // JSON.stringify with a list of property names keeps those properties only, at every depth.
  function Pick(j: Json, names: set<string>): Json {
    match j
    case Object(fields) => Object(map k | k in fields && k in names :: Pick(fields[k], names))
    case Array(items) => Array(seq(|items|, i requires 0 <= i < |items| => Pick(items[i], names)))
    case _ => j
  }

  // The text made from an object, up to the injective encoding of the tree that is left.
  function ObjectToKey(j: Json): Json {
    Pick(j, if j.Object? then j.fields.Keys else {})
  }

  predicate HasProperty(property: string, filter: Json) {
    filter.Object? &&
    exists k :: k in filter.fields &&
      if k == "AND" || k == "OR" then
        filter.fields[k].Array? && exists f :: f in filter.fields[k].items && HasProperty(property, f)
      else
        k == property
  }

  // ----- what is read of a filter

  datatype Step = Field(name: string) | Item(index: nat)

  // What stands at the end of a path: nothing, an object, a list of some length, or a plain value.
  datatype Found = Nothing | Node | List(length: nat) | Leaf(value: Json)

  function Look(j: Json, path: seq<Step>): Found
    decreases |path|
  {
    if path == [] then
      match j
      case Object(_) => Node
      case Array(items) => List(|items|)
      case _ => Leaf(j)
    else
      match path[0]
      case Field(name) => if j.Object? && name in j.fields then Look(j.fields[name], path[1..]) else Nothing
      case Item(index) => if j.Array? && index < |j.items| then Look(j.items[index], path[1..]) else Nothing
  }

  predicate Along(path: seq<Step>, names: set<string>) {
    forall step :: step in path && step.Field? ==> step.name in names
  }

  ghost predicate LookAlike(a: Json, b: Json, names: set<string>) {
    forall path :: Along(path, names) ==> Look(a, path) == Look(b, path)
  }

  lemma LookPicked(j: Json, names: set<string>, path: seq<Step>)
    requires Along(path, names)
    ensures Look(Pick(j, names), path) == Look(j, path)
    decreases |path|
  {
    if path != [] {
      assert path == [path[0]] + path[1..];
      match path[0]
      case Field(name) =>
        if j.Object? && name in j.fields { LookPicked(j.fields[name], names, path[1..]); }
      case Item(index) =>
        if j.Array? && index < |j.items| { LookPicked(j.items[index], names, path[1..]); }
    }
  }

  lemma LookAlikeUnder(a: Json, b: Json, names: set<string>, step: Step, under: Json, other: Json)
    requires LookAlike(a, b, names) && (step.Field? ==> step.name in names)
    requires forall path :: Look(a, [step] + path) == Look(under, path) && Look(b, [step] + path) == Look(other, path)
    ensures LookAlike(under, other, names)
  {
    forall path | Along(path, names) ensures Look(under, path) == Look(other, path) {
      assert Along([step] + path, names);
    }
  }

  lemma LookAtField(j: Json, name: string)
    requires j.Object? && name in j.fields
    ensures forall path :: Look(j, [Field(name)] + path) == Look(j.fields[name], path)
  {
    forall path ensures Look(j, [Field(name)] + path) == Look(j.fields[name], path) {
      assert ([Field(name)] + path)[1..] == path;
    }
  }

  lemma LookAtItem(j: Json, index: nat)
    requires j.Array? && index < |j.items|
    ensures forall path :: Look(j, [Item(index)] + path) == Look(j.items[index], path)
  {
    forall path ensures Look(j, [Item(index)] + path) == Look(j.items[index], path) {
      assert ([Item(index)] + path)[1..] == path;
    }
  }

  lemma {:induction false} AlikeIsPicked(a: Json, b: Json, names: set<string>)
    requires LookAlike(a, b, names)
    ensures Pick(a, names) == Pick(b, names)
    decreases a
  {
    assert Along([], names) && Look(a, []) == Look(b, []);
    match a
    case Object(fields) =>
      assert b.Object?;
      forall name | name in names
        ensures name in fields <==> name in b.fields
        ensures name in fields && name in b.fields ==> Pick(fields[name], names) == Pick(b.fields[name], names)
      {
        assert Along([Field(name)], names) && Look(a, [Field(name)]) == Look(b, [Field(name)]);
        FieldIsFound(a, name);
        FieldIsFound(b, name);
        if name in fields && name in b.fields {
          LookAtField(a, name);
          LookAtField(b, name);
          LookAlikeUnder(a, b, names, Field(name), fields[name], b.fields[name]);
          AlikeIsPicked(fields[name], b.fields[name], names);
        }
      }
    case Array(items) =>
      assert b.Array? && |items| == |b.items|;
      forall i | 0 <= i < |items| ensures Pick(items[i], names) == Pick(b.items[i], names) {
        LookAtItem(a, i);
        LookAtItem(b, i);
        LookAlikeUnder(a, b, names, Item(i), items[i], b.items[i]);
        AlikeIsPicked(items[i], b.items[i], names);
      }
    case _ =>
  }

  lemma FieldIsFound(j: Json, name: string)
    ensures j.Object? && name in j.fields <==> Look(j, [Field(name)]) != Nothing
  {
    if j.Object? && name in j.fields {
      assert [Field(name)][1..] == [];
      assert Look(j, [Field(name)]) == Look(j.fields[name], []);
    }
  }

  /** Two filters get one key exactly when they name the same fields at the top and look alike along every
      path that only uses these names: what else they ask is not seen. */
  lemma {:induction false} SameFilterKey(f: Json, g: Json)
    requires f.Object? && g.Object?
    ensures ObjectToKey(f) == ObjectToKey(g)
            <==> f.fields.Keys == g.fields.Keys && LookAlike(f, g, f.fields.Keys)
  {
    if ObjectToKey(f) == ObjectToKey(g) {
      assert f.fields.Keys == ObjectToKey(f).fields.Keys == ObjectToKey(g).fields.Keys == g.fields.Keys;
      forall path | Along(path, f.fields.Keys) ensures Look(f, path) == Look(g, path) {
        LookPicked(f, f.fields.Keys, path);
        LookPicked(g, f.fields.Keys, path);
      }
    }
    if f.fields.Keys == g.fields.Keys && LookAlike(f, g, f.fields.Keys) {
      AlikeIsPicked(f, g, f.fields.Keys);
    }
  }

  datatype Branch = Branch(list: string, index: nat)

  // The property is a field of an object that lists of `AND` and `OR` lead to.
  predicate NamedAt(filter: Json, path: seq<Branch>, property: string)
    decreases |path|
  {
    && filter.Object?
    && if path == [] then property in filter.fields && property != "AND" && property != "OR"
       else
         && (path[0].list == "AND" || path[0].list == "OR") && path[0].list in filter.fields
         && filter.fields[path[0].list].Array? && path[0].index < |filter.fields[path[0].list].items|
         && NamedAt(filter.fields[path[0].list].items[path[0].index], path[1..], property)
  }

  lemma {:induction false} PropertyPath(property: string, filter: Json) returns (path: seq<Branch>)
    requires HasProperty(property, filter)
    ensures NamedAt(filter, path, property)
    decreases filter
  {
    var k :| k in filter.fields &&
      if k == "AND" || k == "OR" then
        filter.fields[k].Array? && exists f :: f in filter.fields[k].items && HasProperty(property, f)
      else k == property;
    if k == "AND" || k == "OR" {
      var f :| f in filter.fields[k].items && HasProperty(property, f);
      var i :| 0 <= i < |filter.fields[k].items| && filter.fields[k].items[i] == f;
      var rest := PropertyPath(property, f);
      path := [Branch(k, i)] + rest;
      assert path[1..] == rest;
    } else {
      path := [];
    }
  }

  lemma {:induction false} NamedIsProperty(property: string, filter: Json, path: seq<Branch>)
    requires NamedAt(filter, path, property)
    ensures HasProperty(property, filter)
    decreases |path|
  {
    if path == [] {
      assert property in filter.fields;
    } else {
      var k := path[0].list;
      var f := filter.fields[k].items[path[0].index];
      NamedIsProperty(property, f, path[1..]);
      assert k in filter.fields && f in filter.fields[k].items;
    }
  }

  /** A filter has a property exactly when it is named somewhere under its lists of alternatives. */
  lemma {:induction false} HasPropertyMeaning(property: string, filter: Json)
    ensures HasProperty(property, filter) ==> exists path :: NamedAt(filter, path, property)
    ensures (exists path :: NamedAt(filter, path, property)) ==> HasProperty(property, filter)
  {
    if HasProperty(property, filter) {
      var path := PropertyPath(property, filter);
      assert NamedAt(filter, path, property);
    }
    forall path | NamedAt(filter, path, property) ensures HasProperty(property, filter) {
      NamedIsProperty(property, filter, path);
    }
  }

  // ----- keys

  datatype Direction = Forward | Backward

  datatype Sort = Sort(fields: seq<string>, ascending: bool)

  datatype PageArgs = PageArgs(direction: Option<Direction>, count: Option<nat>, cursor: Cursor,
                               filter: Json, sort: Option<Sort>)

  // `shared` says that the key names a system column.
  datatype Key = Key(parent: ParentId, filterKeys: seq<string>, pivots: seq<string>, args: PageArgs,
                     includeTotalCount: bool, shared: bool)

  datatype RequestId = RequestId(direction: Option<Direction>, count: Option<nat>, cursor: Cursor, filter: Json,
                                 sort: Option<Sort>, includeTotalCount: bool, pivots: seq<string>,
                                 filterKeys: seq<string>)

  function RequestIdentifier(k: Key): RequestId {
    RequestId(k.args.direction, k.args.count, k.args.cursor, ObjectToKey(k.args.filter), k.args.sort,
              k.includeTotalCount, k.pivots, k.filterKeys)
  }

  // What the rows of a connection depend on besides its parents: the database answers a query
  // with the rows that pass its filter, in its order.
  datatype Query = Query(filter: Json, sort: Option<Sort>, direction: Direction, pivots: seq<string>,
                         filterKeys: seq<string>)

  type Database = Query -> seq<Row>

  function DirectionOf(k: Key): Direction {
    GetOr(k.args.direction, Forward)
  }

  function QueryOf(k: Key): Query {
    Query(k.args.filter, k.args.sort, DirectionOf(k), k.pivots, k.filterKeys)
  }

  function PageSize(k: Key): (size: nat)
    ensures size > 0
  {
    if k.args.count.Some? && k.args.count.value > 0 then k.args.count.value else MAX_PAGE_SIZE
  }

  /** Two keys share a request exactly when they agree in everything but the parent, the system column and
      what their filters' keys do not see; they ask one query exactly when they agree in what rows depend
      on. */
  lemma SameRequest(j: Key, k: Key)
    ensures RequestIdentifier(j) == RequestIdentifier(k)
            <==> && j.args == k.args.(filter := j.args.filter)
                 && ObjectToKey(j.args.filter) == ObjectToKey(k.args.filter)
                 && j.includeTotalCount == k.includeTotalCount && j.pivots == k.pivots && j.filterKeys == k.filterKeys
    ensures QueryOf(j) == QueryOf(k)
            <==> && j.args.filter == k.args.filter && j.args.sort == k.args.sort
                 && (j.args.direction == Some(Backward) <==> k.args.direction == Some(Backward))
                 && j.pivots == k.pivots && j.filterKeys == k.filterKeys
  {
    GoesBackward(j);
    GoesBackward(k);
  }

  lemma GoesBackward(k: Key)
    ensures DirectionOf(k) == if k.args.direction == Some(Backward) then Backward else Forward
  {
  }

  predicate FiltersByParent(k: Key) {
    exists f :: f in k.filterKeys && HasProperty(f, k.args.filter)
  }

  // ----- pages

  datatype Page = Page(edges: seq<Entity>, startCursor: Option<Entity>, endCursor: Option<Entity>,
                       hasNextPage: bool, hasPreviousPage: bool)

  datatype Response = Response(totalCount: Option<nat>, page: Page)

  function AdjustPageSize(pageSize: nat, cursor: Cursor, totalCount: nat, direction: Direction): (size: nat)
    requires pageSize > 0
    ensures 0 < size <= pageSize
  {
    if direction == Backward && cursor == Start && totalCount % pageSize != 0 then totalCount % pageSize else pageSize
  }

  function Reverse<T>(s: seq<T>): (r: seq<T>)
    ensures |r| == |s|
  {
    seq(|s|, i requires 0 <= i < |s| => s[|s| - 1 - i])
  }

  function First<T>(s: seq<T>): Option<T> {
    if s == [] then None else Some(s[0])
  }

  function Last<T>(s: seq<T>): Option<T> {
    if s == [] then None else Some(s[|s| - 1])
  }

  // The cursor of an edge is a function of its node, so a cursor is given by the node it is of.
  function PageOf(data: seq<Entity>, pageSize: nat, cursor: Cursor, totalCount: nat, direction: Direction): (page: Page)
    requires pageSize > 0
  {
    var adjusted := AdjustPageSize(pageSize, cursor, totalCount, direction);
    var seek := adjusted + 1;
    if direction == Forward then
      Page(Take(data, pageSize),
           First(data),
           if data == [] then None else if |data| < seek then Last(data) else Some(data[adjusted - 1]),
           |data| > adjusted,
           cursor.After?)
    else
      var reversed := Reverse(data);
      var edges := if |reversed| == seek then reversed[1..] else reversed;
      Page(edges, First(edges), Last(edges), cursor.After?, |data| > adjusted)
  }

  /** A forward page is decided by one more child than the page holds. */
  lemma ForwardPageNeedsOneMore(data: seq<Entity>, pageSize: nat, cursor: Cursor, totalCount: nat)
    requires pageSize > 0
    ensures PageOf(data, pageSize, cursor, totalCount, Forward)
         == PageOf(Take(data, pageSize + 1), pageSize, cursor, totalCount, Forward)
    ensures |PageOf(data, pageSize, cursor, totalCount, Forward).edges| <= pageSize
  {
    var ahead := Take(data, pageSize + 1);
    assert Take(data, pageSize) == Take(ahead, pageSize);
  }

  /** A backward page holds more than a page of edges exactly when more children were fetched than
      fit and the fetch did not stop one past the adjusted size. */
  lemma BackwardPageSize(data: seq<Entity>, pageSize: nat, cursor: Cursor, totalCount: nat)
    requires pageSize > 0
    ensures |PageOf(data, pageSize, cursor, totalCount, Backward).edges| <= pageSize
            <==> |data| <= pageSize
                 || (|data| == pageSize + 1 && (cursor.After? || totalCount % pageSize == 0))
  {
  }

  /** Two lists give one forward page exactly when they agree on the page and on whether there is more. */
  lemma ForwardPagesAgree(a: seq<Entity>, b: seq<Entity>, pageSize: nat, cursor: Cursor, totalCount: nat)
    requires pageSize > 0
    ensures PageOf(a, pageSize, cursor, totalCount, Forward) == PageOf(b, pageSize, cursor, totalCount, Forward)
            <==> Take(a, pageSize) == Take(b, pageSize) && (|a| > pageSize <==> |b| > pageSize)
  {
    var pa, pb := PageOf(a, pageSize, cursor, totalCount, Forward), PageOf(b, pageSize, cursor, totalCount, Forward);
    assert pa.edges == Take(a, pageSize) && pb.edges == Take(b, pageSize);
    if Take(a, pageSize) == Take(b, pageSize) && (|a| > pageSize <==> |b| > pageSize) {
      assert a != [] ==> a[0] == Take(a, pageSize)[0];
      assert b != [] ==> b[0] == Take(b, pageSize)[0];
      assert |a| > pageSize ==> a[pageSize - 1] == Take(a, pageSize)[pageSize - 1];
      assert |b| > pageSize ==> b[pageSize - 1] == Take(b, pageSize)[pageSize - 1];
    }
  }

  lemma ReverseDetermines<T>(a: seq<T>, b: seq<T>)
    requires Reverse(a) == Reverse(b)
    ensures a == b
  {
    assert |Reverse(a)| == |a| && |Reverse(b)| == |b|;
    forall i | 0 <= i < |a| ensures a[i] == b[i] {
      assert Reverse(a)[|a| - 1 - i] == a[i] && Reverse(b)[|b| - 1 - i] == b[i];
    }
  }

  // The edges of a backward page: all the data, or all but the last when it is one more than fits.
  lemma BackwardEdges(data: seq<Entity>, pageSize: nat, cursor: Cursor, totalCount: nat)
    requires pageSize > 0
    ensures var adjusted := AdjustPageSize(pageSize, cursor, totalCount, Backward);
            PageOf(data, pageSize, cursor, totalCount, Backward).edges
            == Reverse(if |data| == adjusted + 1 then data[..adjusted] else data)
  {
    var adjusted := AdjustPageSize(pageSize, cursor, totalCount, Backward);
    if |data| == adjusted + 1 {
      assert Reverse(data)[1..] == Reverse(data[..adjusted]);
    }
  }

  /** Two lists give one backward page exactly when they are one list, or both hold one more than fits
      and agree on what fits. */
  lemma BackwardPagesAgree(a: seq<Entity>, b: seq<Entity>, pageSize: nat, cursor: Cursor, totalCount: nat)
    requires pageSize > 0
    ensures var adjusted := AdjustPageSize(pageSize, cursor, totalCount, Backward);
            PageOf(a, pageSize, cursor, totalCount, Backward) == PageOf(b, pageSize, cursor, totalCount, Backward)
            <==> a == b || (|a| == |b| == adjusted + 1 && a[..adjusted] == b[..adjusted])
  {
    var adjusted := AdjustPageSize(pageSize, cursor, totalCount, Backward);
    BackwardEdges(a, pageSize, cursor, totalCount);
    BackwardEdges(b, pageSize, cursor, totalCount);
    var ea, eb := if |a| == adjusted + 1 then a[..adjusted] else a, if |b| == adjusted + 1 then b[..adjusted] else b;
    if Reverse(ea) == Reverse(eb) {
      ReverseDetermines(ea, eb);
    }
  }
}
