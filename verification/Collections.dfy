/** Small helpers on sequences and sets that several modules share. */
module Collections {

  datatype Option<+T> = None | Some(value: T)

  function GetOr<T>(o: Option<T>, default: T): T {
    match o case Some(v) => v case None => default
  }

  predicate NoDuplicates<T(==)>(s: seq<T>) {
    forall i, j :: 0 <= i < j < |s| ==> s[i] != s[j]
  }

  lemma NoDuplicatesAppend<T>(a: seq<T>, b: seq<T>)
    requires NoDuplicates(a) && NoDuplicates(b) && forall x :: x in b ==> x !in a
    ensures NoDuplicates(a + b)
  {
    forall i, j | 0 <= i < j < |a + b| ensures (a + b)[i] != (a + b)[j] {
      if i < |a| <= j {
        assert b[j - |a|] in b && a[i] in a;
      }
    }
  }

  // The elements of a set in some order, which is all a database promises about its rows.
  method InSomeOrder<T(==)>(elements: set<T>) returns (s: seq<T>)
    ensures NoDuplicates(s)
    ensures forall e :: e in s <==> e in elements
  {
    s := [];
    var todo := elements;
    while todo != {}
      invariant todo <= elements
      invariant NoDuplicates(s)
      invariant forall e :: e in s <==> e in elements && e !in todo
      decreases |todo|
    {
      var e :| e in todo;
      s, todo := s + [e], todo - {e};
    }
  }

  lemma SubsetCardinality<T>(a: set<T>, b: set<T>)
    requires a <= b
    ensures |a| <= |b|
    ensures |a| == |b| ==> a == b
  {
    assert b == a + (b - a);
  }

  // ----- filtering lists

  function Filter<T(!new)>(s: seq<T>, f: T -> bool): (kept: seq<T>)
    ensures forall x :: x in kept <==> x in s && f(x)
    ensures |kept| <= |s|
  {
    if s == [] then []
    else
      var rest := Filter(s[..|s| - 1], f);
      var x := s[|s| - 1];
      assert forall y :: y in s <==> y in s[..|s| - 1] || y == x;
      if f(x) then rest + [x] else rest
  }

  lemma {:induction false} FilterSame<T(!new)>(s: seq<T>, f: T -> bool, g: T -> bool)
    requires forall x :: x in s ==> f(x) == g(x)
    ensures Filter(s, f) == Filter(s, g)
  {
    if s != [] {
      FilterSame(s[..|s| - 1], f, g);
    }
  }

  lemma {:induction false} FilterTwice<T(!new)>(s: seq<T>, f: T -> bool, g: T -> bool, both: T -> bool)
    requires forall x :: x in s ==> both(x) == (f(x) && g(x))
    ensures Filter(Filter(s, f), g) == Filter(s, both)
  {
    if s != [] {
      var init, last := s[..|s| - 1], s[|s| - 1];
      FilterTwice(init, f, g, both);
      if f(last) {
        assert (Filter(init, f) + [last])[..|Filter(init, f)|] == Filter(init, f);
      }
    }
  }

  lemma {:induction false} FilterAll<T(!new)>(s: seq<T>, f: T -> bool)
    requires forall x :: x in s ==> f(x)
    ensures Filter(s, f) == s
  {
    if s != [] {
      assert s == s[..|s| - 1] + [s[|s| - 1]];
      FilterAll(s[..|s| - 1], f);
    }
  }

  lemma {:induction false} FilterNoDuplicates<T(!new)>(s: seq<T>, f: T -> bool)
    requires NoDuplicates(s)
    ensures NoDuplicates(Filter(s, f))
  {
    if s != [] {
      FilterNoDuplicates(s[..|s| - 1], f);
    }
  }

  lemma FilterEmpty<T(!new)>(s: seq<T>, f: T -> bool)
    ensures Filter(s, f) == [] <==> forall x :: x in s ==> !f(x)
  {
    if Filter(s, f) != [] {
      assert Filter(s, f)[0] in Filter(s, f);
    }
  }
}
