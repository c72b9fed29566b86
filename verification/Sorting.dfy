/** The library's stable sort, for any strict weak order. */
module Sorting {

  /** A strict order in which what is below a value is below everything not below that value. */
  ghost predicate WeakOrder<T(!new)>(less: (T, T) -> bool) {
    && (forall a, b :: less(a, b) ==> !less(b, a))
    && (forall a, b, c :: less(a, b) && !less(c, b) ==> less(a, c))
  }

  ghost predicate Sorted<T>(less: (T, T) -> bool, s: seq<T>) {
    forall i, j :: 0 <= i < j < |s| ==> !less(s[j], s[i])
  }

  function Insert<T>(less: (T, T) -> bool, x: T, s: seq<T>): (r: seq<T>)
    ensures multiset(r) == multiset{x} + multiset(s)
  {
    if s == [] || !less(s[0], x) then [x] + s
    else
      assert s == [s[0]] + s[1..];
      [s[0]] + Insert(less, x, s[1..])
  }

  function Sort<T>(less: (T, T) -> bool, s: seq<T>): (r: seq<T>)
    ensures multiset(r) == multiset(s)
  {
    if s == [] then []
    else
      assert s == [s[0]] + s[1..];
      Insert(less, s[0], Sort(less, s[1..]))
  }

  lemma NotBelow<T(!new)>(less: (T, T) -> bool, a: T, b: T, c: T)
    requires WeakOrder(less) && !less(a, b) && !less(b, c)
    ensures !less(a, c)
  {
  }

  lemma {:induction false} InsertKeepsSorted<T(!new)>(less: (T, T) -> bool, x: T, s: seq<T>)
    requires WeakOrder(less) && Sorted(less, s)
    ensures Sorted(less, Insert(less, x, s))
  {
    if s == [] {
    } else if !less(s[0], x) {
      forall j | 0 < j < |s|
        ensures !less(s[j], x)
      {
        NotBelow(less, s[j], s[0], x);
      }
    } else {
      InsertKeepsSorted(less, x, s[1..]);
      var rest := Insert(less, x, s[1..]);
      forall j | 0 <= j < |rest|
        ensures !less(rest[j], s[0])
      {
        assert rest[j] in multiset(rest);
        assert rest[j] == x || rest[j] in s[1..];
      }
    }
  }

  /** Sorting sorts. */
  lemma {:induction false} SortIsSorted<T(!new)>(less: (T, T) -> bool, s: seq<T>)
    requires WeakOrder(less)
    ensures Sorted(less, Sort(less, s))
  {
    if s != [] {
      SortIsSorted(less, s[1..]);
      InsertKeepsSorted(less, s[0], Sort(less, s[1..]));
    }
  }

  predicate Tie<T>(less: (T, T) -> bool, x: T, y: T) {
    !less(x, y) && !less(y, x)
  }

  function Only<T>(keep: bool, x: T): seq<T> {
    if keep then [x] else []
  }

  /** The elements that tie with `x`, in order. */
  function Ties<T>(less: (T, T) -> bool, x: T, s: seq<T>): seq<T> {
    if s == [] then []
    else Only(Tie(less, x, s[0]), s[0]) + Ties(less, x, s[1..])
  }

  lemma TiesOfCons<T>(less: (T, T) -> bool, x: T, y: T, s: seq<T>)
    ensures Ties(less, x, [y] + s) == Only(Tie(less, x, y), y) + Ties(less, x, s)
  {
    assert ([y] + s)[1..] == s;
  }

  lemma {:induction false} InsertGoesBeforeTies<T(!new)>(less: (T, T) -> bool, x: T, y: T, s: seq<T>)
    requires WeakOrder(less)
    ensures Ties(less, x, Insert(less, y, s)) == Only(Tie(less, x, y), y) + Ties(less, x, s)
  {
    hide Ties;
    if s == [] || !less(s[0], y) {
      TiesOfCons(less, x, y, s);
    } else {
      var head := s[0];
      InsertGoesBeforeTies(less, x, y, s[1..]);
      TiesOfCons(less, x, head, Insert(less, y, s[1..]));
      TiesOfCons(less, x, head, s[1..]);
      assert [head] + s[1..] == s;
      NotBothTie(less, x, head, y);
      hide WeakOrder;
      hide Tie;
    }
  }

  lemma NotBothTie<T(!new)>(less: (T, T) -> bool, x: T, a: T, b: T)
    requires WeakOrder(less) && less(a, b)
    ensures !(Tie(less, x, a) && Tie(less, x, b))
  {
  }

  /** Elements that tie keep their order. */
  lemma {:induction false} SortIsStable<T(!new)>(less: (T, T) -> bool, x: T, s: seq<T>)
    requires WeakOrder(less)
    ensures Ties(less, x, Sort(less, s)) == Ties(less, x, s)
  {
    if s != [] {
      SortIsStable(less, x, s[1..]);
      InsertGoesBeforeTies(less, x, s[0], Sort(less, s[1..]));
    }
  }

  /** The first element that ties with `x` is preceded by none that does. */
  lemma {:induction false} FirstTie<T(!new)>(less: (T, T) -> bool, x: T, s: seq<T>) returns (k: nat)
    requires Ties(less, x, s) != []
    ensures k < |s| && s[k] == Ties(less, x, s)[0] && Tie(less, x, s[k])
    ensures forall i :: 0 <= i < k ==> !Tie(less, x, s[i])
  {
    if Tie(less, x, s[0]) {
      k := 0;
    } else {
      var j := FirstTie(less, x, s[1..]);
      k := j + 1;
      assert forall i :: 0 < i < k ==> s[i] == s[1..][i - 1];
    }
  }

  // ---- permutations -----------------------------------------------------------------------

  lemma Cancel<T>(a: multiset<T>, b: multiset<T>, x: T)
    requires a + multiset{x} == b + multiset{x}
    ensures a == b
  {
    assert a == (a + multiset{x}) - multiset{x};
    assert b == (b + multiset{x}) - multiset{x};
  }

  lemma HeadAndTail<T>(s: seq<T>)
    requires s != []
    ensures multiset(s) == multiset(s[1..]) + multiset{s[0]}
  {
    assert s == [s[0]] + s[1..];
  }

  /** Two sorted lists of the same elements are equal, when elements that tie are. */
  lemma {:induction false} SortedIsUnique<T(!new)>(less: (T, T) -> bool, a: seq<T>, b: seq<T>)
    requires WeakOrder(less) && Sorted(less, a) && Sorted(less, b) && multiset(a) == multiset(b)
    requires forall x, y :: x in a && y in a && Tie(less, x, y) ==> x == y
    ensures a == b
  {
    assert |a| == |multiset(a)| == |multiset(b)| == |b|;
    if a != [] {
      assert a[0] in multiset(b) && b[0] in multiset(a);
      assert Tie(less, a[0], b[0]);
      HeadAndTail(a);
      HeadAndTail(b);
      Cancel(multiset(a[1..]), multiset(b[1..]), a[0]);
      SortedIsUnique(less, a[1..], b[1..]);
    }
  }
}
