/**
 The relation a child connection is read from: one row per join match, carrying the parent
 columns the rows are grouped by (the pivot) and the child entity. The sort key of a child is
 its position in the requested order, so it is a function of the child, and rows arrive sorted
 by it. The window functions of the paginated query are given their SQL meaning here.
 */
module ChildRelation {
  import opened Collections

  type ParentId = seq<string>

  datatype Entity = Entity(id: string, key: int, system: bool)

  datatype Row = Row(pivot: ParentId, child: Entity)

  // ----- what the database promises about the rows of one query

  ghost predicate Sorted(rows: seq<Row>) {
    forall i, j :: 0 <= i < j < |rows| ==> rows[i].child.key <= rows[j].child.key
  }

  // A child is one entity wherever it occurs, and no two children tie in the order.
  ghost predicate Consistent(rows: seq<Row>) {
    forall r, s :: r in rows && s in rows && (r.child.id == s.child.id || r.child.key == s.child.key)
                   ==> r.child == s.child
  }

  ghost predicate WellFormed(rows: seq<Row>) {
    Sorted(rows) && Consistent(rows)
  }

  // Pivot groups that hold a system entity hold system entities only.
  ghost predicate SystemGroupsPure(rows: seq<Row>) {
    forall r, s :: r in rows && s in rows && r.pivot == s.pivot ==> r.child.system == s.child.system
  }

  // ----- rows

  // A row is shown to parent p when it belongs to p, or is a system row of a shared query.
  predicate VisibleTo(r: Row, p: ParentId, shared: bool) {
    r.pivot == p || (shared && r.child.system)
  }

  function Visible(rows: seq<Row>, p: ParentId, shared: bool): (es: seq<Entity>)
  {
    if rows == [] then []
    else
      var rest := Visible(rows[..|rows| - 1], p, shared);
      var r := rows[|rows| - 1];
      if VisibleTo(r, p, shared) then rest + [r.child] else rest
  }

  // One `IN` filter per parent column: every column value is requested by some parent.
  predicate InFilters(pivot: ParentId, parents: seq<ParentId>) {
    forall c :: 0 <= c < |pivot| ==> exists p :: p in parents && c < |p| && p[c] == pivot[c]
  }

  function Where(rows: seq<Row>, parents: seq<ParentId>, shared: bool): (base: seq<Row>)
  {
    if rows == [] then []
    else
      var rest := Where(rows[..|rows| - 1], parents, shared);
      var r := rows[|rows| - 1];
      if InFilters(r.pivot, parents) || (shared && r.child.system) then rest + [r] else rest
  }

  datatype Cursor = Start | After(key: int)

  predicate PastCursor(r: Row, cursor: Cursor) {
    cursor.After? ==> r.child.key > cursor.key
  }

  function Seek(rows: seq<Row>, cursor: Cursor): (page: seq<Row>)
  {
    if rows == [] then []
    else
      var rest := Seek(rows[..|rows| - 1], cursor);
      var r := rows[|rows| - 1];
      if PastCursor(r, cursor) then rest + [r] else rest
  }

  // ----- window functions

  // DENSE_RANK() OVER (PARTITION BY pivot ORDER BY key), for a row r of the relation.
  function DenseRank(rows: seq<Row>, r: Row): nat {
    |set x | x in rows && x.pivot == r.pivot && x.child.key <= r.child.key :: x.child.key|
  }

  // ROW_NUMBER() OVER (PARTITION BY pivot, child ORDER BY key), for the row at position i.
  function RowNumber(rows: seq<Row>, i: nat): nat
    requires i < |rows|
  {
    |set j | 0 <= j <= i && rows[j].pivot == rows[i].pivot && rows[j].child.id == rows[i].child.id|
  }

  predicate Kept(rows: seq<Row>, n: nat, i: nat)
    requires i < |rows|
  {
    DenseRank(rows, rows[i]) <= n && RowNumber(rows, i) == 1
  }

  ghost predicate FirstOfItsChild(rows: seq<Row>, i: nat)
    requires i < |rows|
  {
    forall j :: 0 <= j < i ==> rows[j].pivot != rows[i].pivot || rows[j].child.id != rows[i].child.id
  }

  function Select(rows: seq<Row>, keep: seq<bool>): (kept: seq<Row>)
    requires |keep| == |rows|
  {
    if rows == [] then []
    else
      var rest := Select(rows[..|rows| - 1], keep[..|rows| - 1]);
      if keep[|rows| - 1] then rest + [rows[|rows| - 1]] else rest
  }

  function Window(rows: seq<Row>, n: nat): (kept: seq<Row>) {
    Select(rows, seq(|rows|, i requires 0 <= i < |rows| => Kept(rows, n, i)))
  }

  // ----- lists of children

  predicate HasId(es: seq<Entity>, id: string) {
    exists e :: e in es && e.id == id
  }

  // First occurrences, in order.
  function Distinct(es: seq<Entity>): (d: seq<Entity>)
  {
    if es == [] then []
    else
      var rest := Distinct(es[..|es| - 1]);
      var e := es[|es| - 1];
      if HasId(rest, e.id) then rest else rest + [e]
  }

  function Take<T>(s: seq<T>, n: nat): (t: seq<T>)
  {
    if n <= |s| then s[..n] else s
  }

  ghost predicate Ascending(es: seq<Entity>) {
    forall i, j :: 0 <= i < j < |es| ==> es[i].key < es[j].key
  }

  ghost predicate NonDescending(es: seq<Entity>) {
    forall i, j :: 0 <= i < j < |es| ==> es[i].key <= es[j].key
  }

  ghost predicate ConsistentChildren(es: seq<Entity>) {
    forall d, e :: d in es && e in es && (d.id == e.id || d.key == e.key) ==> d == e
  }

  // ----- membership

  lemma {:induction false} VisibleMembers(rows: seq<Row>, p: ParentId, shared: bool, e: Entity)
    ensures e in Visible(rows, p, shared) <==> exists r :: r in rows && VisibleTo(r, p, shared) && r.child == e
  {
    if rows != [] {
      var init, last := rows[..|rows| - 1], rows[|rows| - 1];
      assert rows == init + [last];
      VisibleMembers(init, p, shared, e);
    }
  }

  lemma {:induction false} WhereMembers(rows: seq<Row>, parents: seq<ParentId>, shared: bool, r: Row)
    ensures r in Where(rows, parents, shared)
            <==> r in rows && (InFilters(r.pivot, parents) || (shared && r.child.system))
  {
    if rows != [] {
      var init, last := rows[..|rows| - 1], rows[|rows| - 1];
      assert rows == init + [last];
      WhereMembers(init, parents, shared, r);
    }
  }

  lemma {:induction false} SeekMembers(rows: seq<Row>, cursor: Cursor, r: Row)
    ensures r in Seek(rows, cursor) <==> r in rows && PastCursor(r, cursor)
  {
    if rows != [] {
      var init, last := rows[..|rows| - 1], rows[|rows| - 1];
      assert rows == init + [last];
      SeekMembers(init, cursor, r);
    }
  }

  lemma {:induction false} DistinctMembers(es: seq<Entity>, e: Entity)
    requires ConsistentChildren(es)
    ensures e in Distinct(es) <==> e in es
  {
    if es != [] {
      var init, last := es[..|es| - 1], es[|es| - 1];
      assert es == init + [last];
      DistinctMembers(init, e);
      DistinctMembers(init, last);
      if HasId(Distinct(init), last.id) {
        var d :| d in Distinct(init) && d.id == last.id;
        DistinctMembers(init, d);
      }
    }
  }

  // ----- order is kept by every filter

  lemma {:induction false} WhereSorted(rows: seq<Row>, parents: seq<ParentId>, shared: bool)
    requires Sorted(rows)
    ensures Sorted(Where(rows, parents, shared))
  {
    if rows != [] {
      var init, last := rows[..|rows| - 1], rows[|rows| - 1];
      var picked := Where(init, parents, shared);
      assert rows == init + [last];
      WhereSorted(init, parents, shared);
      forall r | r in picked ensures r in init { WhereMembers(init, parents, shared, r); }
      AppendSorted(init, last, picked);
    }
  }

  lemma WhereKeepsOrder(rows: seq<Row>, parents: seq<ParentId>, shared: bool)
    requires WellFormed(rows)
    ensures WellFormed(Where(rows, parents, shared))
  {
    WhereSorted(rows, parents, shared);
    forall r | r in Where(rows, parents, shared) ensures r in rows { WhereMembers(rows, parents, shared, r); }
  }

  lemma {:induction false} SeekSorted(rows: seq<Row>, cursor: Cursor)
    requires Sorted(rows)
    ensures Sorted(Seek(rows, cursor))
  {
    if rows != [] {
      var init, last := rows[..|rows| - 1], rows[|rows| - 1];
      var picked := Seek(init, cursor);
      assert rows == init + [last];
      SeekSorted(init, cursor);
      forall r | r in picked ensures r in init { SeekMembers(init, cursor, r); }
      AppendSorted(init, last, picked);
    }
  }

  lemma SeekKeepsOrder(rows: seq<Row>, cursor: Cursor)
    requires WellFormed(rows)
    ensures WellFormed(Seek(rows, cursor))
  {
    SeekSorted(rows, cursor);
    forall r | r in Seek(rows, cursor) ensures r in rows { SeekMembers(rows, cursor, r); }
  }

  lemma AppendSorted(init: seq<Row>, last: Row, picked: seq<Row>)
    requires Sorted(init + [last]) && Sorted(picked)
    requires forall r :: r in picked ==> r in init
    ensures Sorted(picked + [last])
  {
    var all := init + [last];
    forall r | r in picked ensures r.child.key <= last.child.key {
      var k :| 0 <= k < |init| && init[k] == r;
      assert all[k] == r && all[|init|] == last;
    }
    AppendLargest(picked, last);
  }

  lemma AppendLargest(picked: seq<Row>, last: Row)
    requires Sorted(picked) && forall r :: r in picked ==> r.child.key <= last.child.key
    ensures Sorted(picked + [last])
  {
  }

  lemma {:induction false} VisibleInOrder(rows: seq<Row>, p: ParentId, shared: bool)
    requires WellFormed(rows)
    ensures NonDescending(Visible(rows, p, shared)) && ConsistentChildren(Visible(rows, p, shared))
  {
    if rows != [] {
      var init, last := rows[..|rows| - 1], rows[|rows| - 1];
      assert rows == init + [last];
      assert WellFormed(init);
      VisibleInOrder(init, p, shared);
      forall e ensures e in Visible(init, p, shared) ==> e.key <= last.child.key {
        VisibleMembers(init, p, shared, e);
      }
      forall e ensures e in Visible(rows, p, shared) ==> exists r :: r in rows && r.child == e {
        VisibleMembers(rows, p, shared, e);
      }
    }
  }

  lemma AppendAscends(es: seq<Entity>, e: Entity)
    requires Ascending(es) && forall x :: x in es ==> x.key < e.key
    ensures Ascending(es + [e])
  {
  }

  lemma {:induction false} DistinctAscends(es: seq<Entity>)
    requires NonDescending(es) && ConsistentChildren(es)
    ensures Ascending(Distinct(es))
  {
    if es != [] {
      var init, last := es[..|es| - 1], es[|es| - 1];
      InOrderBefore(es);
      DistinctAscends(init);
      if !HasId(Distinct(init), last.id) {
        forall e | e in Distinct(init) ensures e.key < last.key {
          DistinctMembers(init, e);
          BeforeLast(es, e);
        }
        AppendAscends(Distinct(init), last);
      }
    }
  }

  lemma InOrderBefore(es: seq<Entity>)
    requires es != [] && NonDescending(es) && ConsistentChildren(es)
    ensures NonDescending(es[..|es| - 1]) && ConsistentChildren(es[..|es| - 1])
  {
    assert forall e :: e in es[..|es| - 1] ==> e in es;
  }

  lemma BeforeLast(es: seq<Entity>, e: Entity)
    requires es != [] && NonDescending(es) && ConsistentChildren(es)
    requires e in es[..|es| - 1] && e.id != es[|es| - 1].id
    ensures e.key < es[|es| - 1].key
  {
    var i :| 0 <= i < |es| - 1 && es[i] == e;
    assert e in es && es[|es| - 1] in es;
  }

  // ----- ascending lists are determined by their elements

  ghost function Keys(es: seq<Entity>): set<int> {
    set e | e in es :: e.key
  }

  lemma KeysStep(es: seq<Entity>)
    requires es != []
    ensures Keys(es) == Keys(es[..|es| - 1]) + {es[|es| - 1].key}
  {
    assert es == es[..|es| - 1] + [es[|es| - 1]];
  }

  lemma LastKeyIsNew(es: seq<Entity>)
    requires es != [] && Ascending(es)
    ensures Ascending(es[..|es| - 1]) && es[|es| - 1].key !in Keys(es[..|es| - 1])
  {
    forall e | e in es[..|es| - 1] ensures e.key < es[|es| - 1].key {
      var i :| 0 <= i < |es| - 1 && es[i] == e;
    }
  }

  lemma {:induction false} KeyCount(es: seq<Entity>)
    ensures |Keys(es)| <= |es|
    ensures Ascending(es) ==> |Keys(es)| == |es|
  {
    if es != [] {
      KeyCount(es[..|es| - 1]);
      KeysStep(es);
      if Ascending(es) {
        LastKeyIsNew(es);
      }
    } else {
      assert Keys(es) == {};
    }
  }

  lemma AgreeAt(a: seq<Entity>, b: seq<Entity>, i: nat)
    requires Ascending(a) && Ascending(b)
    requires i < |b| && b[i] in a
    requires forall j :: 0 <= j < i ==> j < |a| && a[j] == b[j]
    requires forall e :: e in a ==> e in b
    ensures i < |a| && a[i] == b[i]
  {
    var q :| 0 <= q < |a| && a[q] == b[i];
    assert q >= i;
    assert a[i] in b;
    var k :| 0 <= k < |b| && b[k] == a[i];
    assert k >= i;
    assert a[i].key <= a[q].key == b[i].key <= b[k].key;
  }

  // A list within another of the same length or less is no longer than it.
  lemma NoLonger(a: seq<Entity>, b: seq<Entity>)
    requires Ascending(a) && forall e :: e in a ==> e in b
    ensures |a| <= |b|
  {
    KeyCount(a);
    KeyCount(b);
    SubsetCardinality(Keys(a), Keys(b));
  }

  /** Two ascending lists that agree on the first n elements of the larger one agree up to n. */
  lemma {:induction false} SamePrefix(a: seq<Entity>, b: seq<Entity>, n: nat)
    requires Ascending(a) && Ascending(b)
    requires forall e :: e in a ==> e in b
    requires forall i :: 0 <= i < |b| && i < n ==> b[i] in a
    ensures Take(a, n) == Take(b, n)
  {
    NoLonger(a, b);
    var m := 0;
    while m < n && m < |b|
      invariant m <= |a| && m <= |b| && m <= n
      invariant forall j :: 0 <= j < m ==> a[j] == b[j]
    {
      AgreeAt(a, b, m);
      m := m + 1;
    }
  }

  lemma SameElements(a: seq<Entity>, b: seq<Entity>)
    requires Ascending(a) && Ascending(b)
    requires forall e :: e in a <==> e in b
    ensures a == b
  {
    var n := |a| + |b|;
    forall i | 0 <= i < |b| ensures b[i] in a { assert b[i] in b; }
    SamePrefix(a, b, n);
  }

  // ----- ascending lists within one another

  // The list within `plain` shows its child at position j.
  predicate HoldsAt(data: seq<Entity>, plain: seq<Entity>, j: nat) {
    j < |plain| && plain[j] in data
  }

  // It shows the first m children.
  ghost predicate HoldsFirst(data: seq<Entity>, plain: seq<Entity>, m: nat) {
    forall j: nat :: j < m && j < |plain| ==> HoldsAt(data, plain, j)
  }

  ghost predicate HoldsBeyond(data: seq<Entity>, plain: seq<Entity>, m: nat) {
    exists j: nat :: m <= j && HoldsAt(data, plain, j)
  }

  ghost predicate HoldsOneBeyond(data: seq<Entity>, plain: seq<Entity>, m: nat) {
    exists j: nat :: m <= j && HoldsAt(data, plain, j) && forall i: nat :: m <= i && HoldsAt(data, plain, i) ==> i == j
  }

  ghost predicate Within(data: seq<Entity>, plain: seq<Entity>) {
    Ascending(data) && Ascending(plain) && forall e :: e in data ==> e in plain
  }

  lemma HoldsFirstMeansSamePrefix(data: seq<Entity>, plain: seq<Entity>, m: nat)
    requires Within(data, plain)
    ensures HoldsFirst(data, plain, m) <==> Take(data, m) == Take(plain, m)
  {
    if HoldsFirst(data, plain, m) {
      forall j | 0 <= j < |plain| && j < m ensures plain[j] in data {
        assert HoldsAt(data, plain, j);
      }
      SamePrefix(data, plain, m);
    }
    if Take(data, m) == Take(plain, m) {
      forall j: nat | j < m && j < |plain| ensures HoldsAt(data, plain, j) {
        assert plain[j] == Take(plain, m)[j] == data[j];
      }
    }
  }

  lemma PrefixAgrees(data: seq<Entity>, plain: seq<Entity>, m: nat)
    requires Take(data, m) == Take(plain, m)
    ensures |data| < m || |plain| < m ==> |data| == |plain|
    ensures forall i :: 0 <= i < m && i < |data| && i < |plain| ==> data[i] == plain[i]
  {
    assert |Take(data, m)| == |Take(plain, m)|;
    forall i | 0 <= i < m && i < |data| && i < |plain| ensures data[i] == plain[i] {
      assert data[i] == Take(data, m)[i] && plain[i] == Take(plain, m)[i];
    }
  }

  // Where a list after the first m children has a child, as a position in `plain`.
  lemma PositionBeyond(data: seq<Entity>, plain: seq<Entity>, m: nat, q: nat) returns (j: nat)
    requires Within(data, plain) && Take(data, m) == Take(plain, m) && m <= q < |data|
    ensures m <= j < |plain| && plain[j] == data[q]
  {
    assert data[q] in plain;
    j :| 0 <= j < |plain| && plain[j] == data[q];
    PrefixAgrees(data, plain, m);
  }

  lemma BeyondIsLater(data: seq<Entity>, plain: seq<Entity>, m: nat, j: nat) returns (q: nat)
    requires Within(data, plain) && Take(data, m) == Take(plain, m) && m <= j && HoldsAt(data, plain, j)
    ensures m <= q < |data| && data[q] == plain[j]
  {
    q :| 0 <= q < |data| && data[q] == plain[j];
    PrefixAgrees(data, plain, m);
  }

  lemma HoldsBeyondMeansLonger(data: seq<Entity>, plain: seq<Entity>, m: nat)
    requires Within(data, plain) && HoldsFirst(data, plain, m)
    ensures HoldsBeyond(data, plain, m) <==> |data| > m
  {
    HoldsFirstMeansSamePrefix(data, plain, m);
    if |data| > m {
      var j := PositionBeyond(data, plain, m, m);
      assert HoldsAt(data, plain, j);
    }
    if j: nat :| m <= j && HoldsAt(data, plain, j) {
      var q := BeyondIsLater(data, plain, m, j);
    }
  }

  lemma HoldsOneBeyondMeansOneLonger(data: seq<Entity>, plain: seq<Entity>, m: nat)
    requires Within(data, plain) && HoldsFirst(data, plain, m)
    ensures HoldsOneBeyond(data, plain, m) <==> |data| == m + 1
  {
    HoldsFirstMeansSamePrefix(data, plain, m);
    HoldsBeyondMeansLonger(data, plain, m);
    if |data| == m + 1 {
      var j := PositionBeyond(data, plain, m, m);
      forall i: nat | m <= i && HoldsAt(data, plain, i) ensures i == j {
        var q := BeyondIsLater(data, plain, m, i);
      }
    } else if |data| > m + 1 {
      var j := PositionBeyond(data, plain, m, m);
      var i := PositionBeyond(data, plain, m, m + 1);
      assert HoldsAt(data, plain, j) && HoldsAt(data, plain, i);
    }
  }

  lemma PrefixMeansFirstOnly(data: seq<Entity>, plain: seq<Entity>, m: nat)
    requires Within(data, plain)
    ensures data == Take(plain, m) <==> HoldsFirst(data, plain, m) && !HoldsBeyond(data, plain, m)
  {
    HoldsFirstMeansSamePrefix(data, plain, m);
    if HoldsFirst(data, plain, m) {
      HoldsBeyondMeansLonger(data, plain, m);
    }
  }

  // ----- the window

  lemma KeptMeaning(rows: seq<Row>, n: nat, i: nat)
    requires i < |rows|
    ensures Kept(rows, n, i) <==> DenseRank(rows, rows[i]) <= n && FirstOfItsChild(rows, i)
  {
    var s := set j | 0 <= j <= i && rows[j].pivot == rows[i].pivot && rows[j].child.id == rows[i].child.id;
    assert i in s;
    if FirstOfItsChild(rows, i) {
      assert s == {i};
    } else {
      var j :| 0 <= j < i && rows[j].pivot == rows[i].pivot && rows[j].child.id == rows[i].child.id;
      SubsetCardinality({i, j}, s);
    }
  }

  // ----- selecting rows

  lemma {:induction false} SelectMembers(rows: seq<Row>, keep: seq<bool>, r: Row)
    requires |keep| == |rows|
    ensures r in Select(rows, keep) <==> exists i :: 0 <= i < |rows| && keep[i] && rows[i] == r
  {
    if rows != [] {
      var n := |rows| - 1;
      var init := rows[..n];
      SelectMembers(init, keep[..n], r);
      assert forall i :: 0 <= i < n ==> init[i] == rows[i] && keep[..n][i] == keep[i];
    }
  }

  lemma {:induction false} SelectSorted(rows: seq<Row>, keep: seq<bool>)
    requires |keep| == |rows| && Sorted(rows)
    ensures Sorted(Select(rows, keep))
  {
    if rows != [] {
      var n := |rows| - 1;
      var init, picked := rows[..n], Select(rows[..n], keep[..n]);
      assert rows == init + [rows[n]];
      SelectSorted(init, keep[..n]);
      forall r | r in picked ensures r in init { SelectMembers(init, keep[..n], r); }
      AppendSorted(init, rows[n], picked);
    }
  }

  ghost predicate KeepsFirstsOnly(rows: seq<Row>, keep: seq<bool>)
    requires |keep| == |rows|
  {
    forall i :: 0 <= i < |rows| && keep[i] ==> FirstOfItsChild(rows, i)
  }

  lemma FirstsOfPrefix(rows: seq<Row>, keep: seq<bool>, n: nat)
    requires |keep| == |rows| && n <= |rows| && KeepsFirstsOnly(rows, keep)
    ensures KeepsFirstsOnly(rows[..n], keep[..n])
  {
    forall i | 0 <= i < n && keep[..n][i] ensures FirstOfItsChild(rows[..n], i) {
      assert FirstOfItsChild(rows, i);
    }
  }

  lemma EarlierChildrenAreBefore(rows: seq<Row>, keep: seq<bool>, n: nat, e: Entity)
    requires WellFormed(rows) && |keep| == n < |rows| && FirstOfItsChild(rows, n)
    requires e in Visible(Select(rows[..n], keep), rows[n].pivot, false)
    ensures e.key < rows[n].child.key
  {
    var earlier := Select(rows[..n], keep);
    VisibleMembers(earlier, rows[n].pivot, false, e);
    var x :| x in earlier && VisibleTo(x, rows[n].pivot, false) && x.child == e;
    SelectMembers(rows[..n], keep, x);
    var j :| 0 <= j < n && rows[..n][j] == x;
    assert rows[j] in rows && rows[n] in rows;
  }

  // Where only first rows are kept, each pivot meets each of its children once.
  lemma {:induction false} SelectAscends(rows: seq<Row>, keep: seq<bool>, p: ParentId)
    requires WellFormed(rows) && |keep| == |rows| && KeepsFirstsOnly(rows, keep)
    ensures Ascending(Visible(Select(rows, keep), p, false))
  {
    if rows != [] {
      var n := |rows| - 1;
      var r, before := rows[n], Select(rows[..n], keep[..n]);
      assert rows == rows[..n] + [r];
      FirstsOfPrefix(rows, keep, n);
      SelectAscends(rows[..n], keep[..n], p);
      assert (before + [r])[..|before|] == before;
      if keep[n] && r.pivot == p {
        forall e | e in Visible(before, p, false) ensures e.key < r.child.key {
          EarlierChildrenAreBefore(rows, keep[..n], n, e);
        }
        AppendAscends(Visible(before, p, false), r.child);
      }
    }
  }

  // ----- the window is such a selection

  // Every row of the relation is a repeat of some row that is the first of its child.
  lemma FirstOccurrence(rows: seq<Row>, i: nat) returns (j: nat)
    requires Consistent(rows) && i < |rows|
    ensures j < |rows| && rows[j] == rows[i] && FirstOfItsChild(rows, j)
  {
    j := i;
    while !FirstOfItsChild(rows, j)
      invariant j < |rows| && rows[j] == rows[i]
      decreases j
    {
      var k :| 0 <= k < j && rows[k].pivot == rows[j].pivot && rows[k].child.id == rows[j].child.id;
      assert rows[k] in rows && rows[j] in rows;
      j := k;
    }
  }

  lemma WindowMembers(rows: seq<Row>, n: nat, r: Row)
    requires Consistent(rows)
    ensures r in Window(rows, n) <==> r in rows && DenseRank(rows, r) <= n
  {
    SelectMembers(rows, seq(|rows|, i requires 0 <= i < |rows| => Kept(rows, n, i)), r);
    if r in Window(rows, n) {
      var i :| 0 <= i < |rows| && Kept(rows, n, i) && rows[i] == r;
    } else if i :| 0 <= i < |rows| && rows[i] == r {
      var j := FirstOccurrence(rows, i);
      KeptMeaning(rows, n, j);
    }
  }

  lemma WindowKeepsOrder(rows: seq<Row>, n: nat)
    requires WellFormed(rows)
    ensures WellFormed(Window(rows, n))
  {
    SelectSorted(rows, seq(|rows|, i requires 0 <= i < |rows| => Kept(rows, n, i)));
    forall r | r in Window(rows, n) ensures r in rows { WindowMembers(rows, n, r); }
  }

  lemma WindowAscends(rows: seq<Row>, n: nat, p: ParentId)
    requires WellFormed(rows)
    ensures Ascending(Visible(Window(rows, n), p, false))
  {
    forall i | 0 <= i < |rows| && Kept(rows, n, i) ensures FirstOfItsChild(rows, i) {
      KeptMeaning(rows, n, i);
    }
    SelectAscends(rows, seq(|rows|, i requires 0 <= i < |rows| => Kept(rows, n, i)), p);
  }

  lemma {:induction false} NothingToDedupe(es: seq<Entity>, n: nat)
    requires n <= |es| && forall i, j :: 0 <= i < j < |es| ==> es[i].id != es[j].id
    ensures Distinct(es[..n]) == es[..n]
  {
    if n > 0 {
      NothingToDedupe(es, n - 1);
      assert es[..n][..n - 1] == es[..n - 1];
      assert es[..n] == es[..n - 1] + [es[n - 1]];
    }
  }

  lemma IdsDiffer(es: seq<Entity>, i: nat, j: nat)
    requires Ascending(es) && ConsistentChildren(es) && i < j < |es|
    ensures es[i].id != es[j].id
  {
    assert es[i] in es && es[j] in es;
  }

  /** Collecting a parent's own rows of the window drops none of them as a repeat. */
  lemma OwnRowsAreNotRepeated(rows: seq<Row>, n: nat, p: ParentId)
    requires WellFormed(rows)
    ensures Distinct(Visible(Window(rows, n), p, false)) == Visible(Window(rows, n), p, false)
  {
    WindowKeepsOrder(rows, n);
    VisibleInOrder(Window(rows, n), p, false);
    WindowAscends(rows, n, p);
    var own := Visible(Window(rows, n), p, false);
    forall i, j | 0 <= i < j < |own| ensures own[i].id != own[j].id {
      IdsDiffer(own, i, j);
    }
    NothingToDedupe(own, |own|);
    assert own[..|own|] == own;
  }

  // A row's dense rank is at most one more than its child's position in any ascending list that
  // shows the whole group of the row.
  lemma RankBound(rows: seq<Row>, r: Row, all: seq<Entity>, i: nat)
    requires Ascending(all) && i < |all| && all[i] == r.child
    requires forall x :: x in rows && x.pivot == r.pivot ==> x.child in all
    ensures DenseRank(rows, r) <= i + 1
  {
    var ranked := set x | x in rows && x.pivot == r.pivot && x.child.key <= r.child.key :: x.child.key;
    var prefix := all[..i + 1];
    forall x | x in rows && x.pivot == r.pivot && x.child.key <= r.child.key ensures x.child.key in Keys(prefix) {
      var k :| 0 <= k < |all| && all[k] == x.child;
      assert prefix[k] == x.child;
    }
    SubsetCardinality(ranked, Keys(prefix));
    KeyCount(prefix);
  }

  lemma RankAtLeast(rows: seq<Row>, r: Row, es: seq<Entity>)
    requires Ascending(es) && es != [] && es[|es| - 1] == r.child
    requires forall e :: e in es ==> exists x :: x in rows && x.pivot == r.pivot && x.child == e
    ensures DenseRank(rows, r) >= |es|
  {
    var ranked := set x | x in rows && x.pivot == r.pivot && x.child.key <= r.child.key :: x.child.key;
    forall e | e in es ensures e.key in ranked {
      assert e.key <= r.child.key;
      var x :| x in rows && x.pivot == r.pivot && x.child == e;
    }
    SubsetCardinality(Keys(es), ranked);
    KeyCount(es);
  }

  /** Keeping dense rank <= n and row number 1 leaves each parent exactly its first n distinct
      children, each once and in order, however many duplicates the joins produced. */
  lemma {:induction false} WindowIsFirstDistinct(rows: seq<Row>, n: nat, p: ParentId)
    requires WellFormed(rows)
    ensures Visible(Window(rows, n), p, false) == Take(Distinct(Visible(rows, p, false)), n)
  {
    var own := Visible(rows, p, false);
    var all, kept := Distinct(own), Visible(Window(rows, n), p, false);
    VisibleInOrder(rows, p, false);
    DistinctAscends(own);
    WindowAscends(rows, n, p);
    forall e ensures e in all <==> exists r :: r in rows && r.pivot == p && r.child == e {
      DistinctMembers(own, e);
      VisibleMembers(rows, p, false, e);
    }
    forall e ensures e in kept <==> exists r :: r in rows && r.pivot == p && r.child == e && DenseRank(rows, r) <= n {
      VisibleMembers(Window(rows, n), p, false, e);
      forall r ensures r in Window(rows, n) <==> r in rows && DenseRank(rows, r) <= n { WindowMembers(rows, n, r); }
    }
    forall i | 0 <= i < |all| && i < n ensures all[i] in kept {
      assert all[i] in all;
      var r :| r in rows && r.pivot == p && r.child == all[i];
      RankBound(rows, r, all, i);
    }
    SamePrefix(kept, all, n);
    if kept != [] {
      var last := kept[|kept| - 1];
      assert last in kept;
      var r :| r in rows && r.pivot == p && r.child == last && DenseRank(rows, r) <= n;
      RankAtLeast(rows, r, kept);
    }
  }
}
