/** Sorting with a comparison: the result is determined by the elements alone,
    so the order in which Go's maps and lists deliver them cannot show. */
module Sorting {

  /** `le` orders the elements of `dom` totally. */
  ghost predicate Orders<T>(le: (T, T) -> bool, dom: set<T>) {
    && (forall x, y :: x in dom && y in dom ==> le(x, y) || le(y, x))
    && (forall x, y :: x in dom && y in dom && le(x, y) && le(y, x) ==> x == y)
    && (forall x, y, z :: x in dom && y in dom && z in dom && le(x, y) && le(y, z) ==> le(x, z))
  }

  ghost predicate Within<T>(s: seq<T>, dom: set<T>) {
    forall i :: 0 <= i < |s| ==> s[i] in dom
  }

  predicate Sorted<T>(le: (T, T) -> bool, s: seq<T>) {
    forall i, j :: 0 <= i < j < |s| ==> le(s[i], s[j])
  }

  function Insert<T>(le: (T, T) -> bool, x: T, s: seq<T>): (r: seq<T>)
    ensures multiset(r) == multiset(s) + multiset{x}
  {
    if s == [] || le(x, s[0]) then [x] + s
    else
      assert s == [s[0]] + s[1..];
      [s[0]] + Insert(le, x, s[1..])
  }

  function Sort<T>(le: (T, T) -> bool, s: seq<T>): (r: seq<T>)
    ensures multiset(r) == multiset(s)
  {
    if s == [] then []
    else
      assert s == [s[0]] + s[1..];
      Insert(le, s[0], Sort(le, s[1..]))
  }

  lemma SameElements<T>(s: seq<T>, t: seq<T>, dom: set<T>)
    requires multiset(s) == multiset(t) && Within(s, dom)
    ensures Within(t, dom)
  {
    forall i | 0 <= i < |t| ensures t[i] in dom {
      assert t[i] in multiset(t);
      assert t[i] in multiset(s);
    }
  }

  lemma {:induction false} InsertSorted<T>(le: (T, T) -> bool, x: T, s: seq<T>, dom: set<T>)
    requires Orders(le, dom) && x in dom && Within(s, dom) && Sorted(le, s)
    ensures Sorted(le, Insert(le, x, s))
  {
    if s != [] && !le(x, s[0]) {
      InsertSorted(le, x, s[1..], dom);
      var r := Insert(le, x, s[1..]);
      forall i | 0 <= i < |r| ensures le(s[0], r[i]) {
        assert r[i] in multiset(r);
        assert r[i] == x || r[i] in s[1..];
      }
    }
  }

  lemma {:induction false} SortSorts<T>(le: (T, T) -> bool, s: seq<T>, dom: set<T>)
    requires Orders(le, dom) && Within(s, dom)
    ensures Sorted(le, Sort(le, s))
  {
    if s != [] {
      SortSorts(le, s[1..], dom);
      SameElements(s[1..], Sort(le, s[1..]), dom);
      InsertSorted(le, s[0], Sort(le, s[1..]), dom);
    }
  }

  /** Two sorted arrangements of the same elements are the same list. */
  lemma {:induction false} SortedUnique<T>(le: (T, T) -> bool, s: seq<T>, t: seq<T>, dom: set<T>)
    requires multiset(s) == multiset(t)
    requires Orders(le, dom) && Within(s, dom) && Sorted(le, s) && Sorted(le, t)
    ensures s == t
  {
    assert |multiset(s)| == |s| && |multiset(t)| == |t|;
    if s != [] {
      SameElements(s, t, dom);
      SameHead(le, s, t, dom);
      Tail(s);
      Tail(t);
      SortedUnique(le, s[1..], t[1..], dom);
    }
  }

  lemma Tail<T>(s: seq<T>)
    requires s != []
    ensures s == [s[0]] + s[1..] && multiset(s[1..]) == multiset(s) - multiset{s[0]}
  {
    assert s == [s[0]] + s[1..];
    assert multiset(s) == multiset{s[0]} + multiset(s[1..]);
  }

  lemma SameHead<T>(le: (T, T) -> bool, s: seq<T>, t: seq<T>, dom: set<T>)
    requires s != [] && t != [] && multiset(s) == multiset(t)
    requires Orders(le, dom) && Within(s, dom) && Within(t, dom) && Sorted(le, s) && Sorted(le, t)
    ensures s[0] == t[0]
  {
    assert s[0] in multiset(t) && t[0] in multiset(s);
    var i :| 0 <= i < |t| && t[i] == s[0];
    var j :| 0 <= j < |s| && s[j] == t[0];
    assert i == 0 || le(t[0], s[0]);
    assert j == 0 || le(s[0], t[0]);
  }

  /** Sorting forgets the order of its input. */
  lemma SortCanonical<T>(le: (T, T) -> bool, s: seq<T>, t: seq<T>, dom: set<T>)
    requires multiset(s) == multiset(t) && Orders(le, dom) && Within(s, dom)
    ensures Sort(le, s) == Sort(le, t)
  {
    SameElements(s, t, dom);
    SortSorts(le, s, dom);
    SortSorts(le, t, dom);
    SameElements(s, Sort(le, s), dom);
    SortedUnique(le, Sort(le, s), Sort(le, t), dom);
  }
}
