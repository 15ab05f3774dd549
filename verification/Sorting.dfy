/** What `sort.Slice` and `sort.SliceStable` promise. */
module Sorting {

  ghost predicate TotalPreorder<T(!new)>(le: (T, T) -> bool) {
    && (forall a, b :: le(a, b) || le(b, a))
    && (forall a, b, c :: le(a, b) && le(b, c) ==> le(a, c))
  }

  ghost predicate Sorted<T>(le: (T, T) -> bool, s: seq<T>) {
    forall i, j :: 0 <= i < j < |s| ==> le(s[i], s[j])
  }

  predicate Tied<T>(le: (T, T) -> bool, a: T, b: T) { le(a, b) && le(b, a) }

  /** The elements of `s` tied with `x`, in order. */
  function TiedWith<T>(le: (T, T) -> bool, x: T, s: seq<T>): seq<T> {
    if s == [] then []
    else (if Tied(le, x, s[0]) then [s[0]] else []) + TiedWith(le, x, s[1..])
  }

  /** `t` is `s` sorted stably: sorted, and every class of ties keeps its order. */
  ghost predicate StableSortOf<T(!new)>(le: (T, T) -> bool, s: seq<T>, t: seq<T>) {
    && Sorted(le, t)
    && multiset(t) == multiset(s)
    && forall x :: TiedWith(le, x, t) == TiedWith(le, x, s)
  }

  /** An element stands in its own class of ties, so a sorted list's classes fix its head. */
  lemma {:induction false} TiedWithMembers<T(!new)>(le: (T, T) -> bool, x: T, s: seq<T>)
    ensures forall y :: y in TiedWith(le, x, s) <==> y in s && Tied(le, x, y)
  {
    if s != [] {
      TiedWithMembers(le, x, s[1..]);
      assert s == [s[0]] + s[1..];
    }
  }

  /** A stable sort has one possible result. */
  lemma {:induction false} StableSortUnique<T(!new)>(le: (T, T) -> bool, a: seq<T>, b: seq<T>)
    requires TotalPreorder(le)
    requires Sorted(le, a) && Sorted(le, b)
    requires forall x :: TiedWith(le, x, a) == TiedWith(le, x, b)
    ensures a == b
  {
    if a != [] {
      TiedWithMembers(le, a[0], a);
      TiedWithMembers(le, a[0], b);
      assert a[0] in TiedWith(le, a[0], b);
      assert b != [];
      TiedWithMembers(le, b[0], a);
      TiedWithMembers(le, b[0], b);
      assert b[0] in TiedWith(le, b[0], a);
      HeadIsLeast(le, a, b[0]);
      HeadIsLeast(le, b, a[0]);
      assert TiedWith(le, a[0], a)[0] == a[0];
      assert TiedWith(le, a[0], b)[0] == b[0];
      assert a[0] == b[0];
      forall x ensures TiedWith(le, x, a[1..]) == TiedWith(le, x, b[1..]) {
        var h := if Tied(le, x, a[0]) then [a[0]] else [];
        assert TiedWith(le, x, a) == h + TiedWith(le, x, a[1..]);
        assert TiedWith(le, x, b) == h + TiedWith(le, x, b[1..]);
        assert TiedWith(le, x, a[1..]) == TiedWith(le, x, a)[|h|..];
        assert TiedWith(le, x, b[1..]) == TiedWith(le, x, b)[|h|..];
      }
      StableSortUnique(le, a[1..], b[1..]);
      assert a == [a[0]] + a[1..];
      assert b == [b[0]] + b[1..];
    }
  }

  lemma HeadIsLeast<T(!new)>(le: (T, T) -> bool, s: seq<T>, x: T)
    requires TotalPreorder(le) && Sorted(le, s) && x in s
    ensures le(s[0], x)
  {
    var i :| 0 <= i < |s| && s[i] == x;
    if i == 0 { assert le(x, x) || le(x, x); }
  }

  /** Insertion before every element that is not strictly smaller. */
  function Insert<T>(le: (T, T) -> bool, x: T, s: seq<T>): (r: seq<T>)
    ensures multiset(r) == multiset([x] + s)
  {
    if s == [] || le(x, s[0]) then [x] + s
    else
      assert s == [s[0]] + s[1..];
      [s[0]] + Insert(le, x, s[1..])
  }

  function StableSort<T>(le: (T, T) -> bool, s: seq<T>): (r: seq<T>)
    ensures multiset(r) == multiset(s)
  {
    if s == [] then []
    else
      assert s == [s[0]] + s[1..];
      Insert(le, s[0], StableSort(le, s[1..]))
  }

  lemma SortedCons<T>(le: (T, T) -> bool, x: T, s: seq<T>)
    requires Sorted(le, s) && forall j :: 0 <= j < |s| ==> le(x, s[j])
    ensures Sorted(le, [x] + s)
  {
  }

  lemma LeastBefore<T(!new)>(le: (T, T) -> bool, x: T, s: seq<T>)
    requires TotalPreorder(le) && Sorted(le, s) && (s == [] || le(x, s[0]))
    ensures forall j :: 0 <= j < |s| ==> le(x, s[j])
  {
    forall j | 0 < j < |s| ensures le(x, s[j]) {
      assert le(s[0], s[j]);
    }
  }

  lemma {:induction false} InsertSorted<T(!new)>(le: (T, T) -> bool, x: T, s: seq<T>)
    requires TotalPreorder(le) && Sorted(le, s)
    ensures Sorted(le, Insert(le, x, s))
  {
    if s == [] || le(x, s[0]) {
      LeastBefore(le, x, s);
      SortedCons(le, x, s);
    } else {
      var tail := s[1..];
      var r := Insert(le, x, tail);
      InsertSorted(le, x, tail);
      assert le(s[0], x);
      hide TotalPreorder, Insert;
      forall j | 0 <= j < |r| ensures le(s[0], r[j]) {
        assert r[j] in multiset(r) && r[j] in multiset([x] + tail);
        assert r[j] in [x] + tail;
        assert tail == s[1..];
      }
      SortedCons(le, s[0], r);
    }
  }

  lemma {:induction false} InsertStable<T(!new)>(le: (T, T) -> bool, x: T, s: seq<T>, y: T)
    requires TotalPreorder(le) && Sorted(le, s)
    ensures TiedWith(le, y, Insert(le, x, s)) == TiedWith(le, y, [x] + s)
  {
    if s != [] && !le(x, s[0]) {
      InsertStable(le, x, s[1..], y);
      assert ([x] + s)[1..] == s;
      assert ([x] + s[1..])[1..] == s[1..];
      assert !(Tied(le, y, x) && Tied(le, y, s[0]));
    }
  }

  /** Insertion sort meets the stable-sort contract, so that contract has a result for every list. */
  lemma {:induction false} StableSortMeetsContract<T(!new)>(le: (T, T) -> bool, s: seq<T>)
    requires TotalPreorder(le)
    ensures StableSortOf(le, s, StableSort(le, s))
  {
    if s != [] {
      StableSortMeetsContract(le, s[1..]);
      InsertSorted(le, s[0], StableSort(le, s[1..]));
      forall y ensures TiedWith(le, y, StableSort(le, s)) == TiedWith(le, y, s) {
        var t := StableSort(le, s[1..]);
        InsertStable(le, s[0], t, y);
        assert ([s[0]] + t)[1..] == t;
      }
    }
  }

  /** `sort.Slice`: some sorted permutation; ties may come out in any order. */
  method SortSlice<T(!new)>(le: (T, T) -> bool, s: seq<T>) returns (t: seq<T>)
    requires TotalPreorder(le)
    ensures Sorted(le, t) && multiset(t) == multiset(s)
  {
    t := StableSort(le, s);
    StableSortMeetsContract(le, s);
  }

  /** `sort.SliceStable`. */
  method SortSliceStable<T(!new)>(le: (T, T) -> bool, s: seq<T>) returns (t: seq<T>)
    requires TotalPreorder(le)
    ensures StableSortOf(le, s, t)
  {
    t := StableSort(le, s);
    StableSortMeetsContract(le, s);
  }

  ghost predicate StrictlySorted<T>(lt: (T, T) -> bool, s: seq<T>) {
    forall i, j :: 0 <= i < j < |s| ==> lt(s[i], s[j])
  }

  ghost predicate Asymmetric<T(!new)>(lt: (T, T) -> bool) {
    forall x, y :: !(lt(x, y) && lt(y, x))
  }

  ghost predicate SameElements<T(!new)>(a: seq<T>, b: seq<T>) {
    forall x :: x in a <==> x in b
  }

  /** Strictly sorted lists with the same elements are equal. */
  lemma {:induction false} StrictlySortedUnique<T(!new)>(lt: (T, T) -> bool, a: seq<T>, b: seq<T>)
    requires Asymmetric(lt) && StrictlySorted(lt, a) && StrictlySorted(lt, b) && SameElements(a, b)
    ensures a == b
  {
    SameEmptiness(a, b);
    if a != [] {
      SameFirst(lt, a, b);
      forall x ensures x in a[1..] <==> x in b[1..] {
        NotFirst(lt, a, x);
        NotFirst(lt, b, x);
      }
      StrictlySortedUnique(lt, a[1..], b[1..]);
      assert a == [a[0]] + a[1..] && b == [b[0]] + b[1..];
    }
  }

  lemma SameEmptiness<T(!new)>(a: seq<T>, b: seq<T>)
    requires SameElements(a, b)
    ensures a == [] <==> b == []
  {
    if a != [] { assert a[0] in b; }
    if b != [] { assert b[0] in a; }
  }

  lemma NotFirst<T(!new)>(lt: (T, T) -> bool, a: seq<T>, x: T)
    requires Asymmetric(lt) && StrictlySorted(lt, a) && a != []
    ensures x in a[1..] <==> x in a && x != a[0]
  {
    assert a == [a[0]] + a[1..];
    if x in a[1..] {
      var i :| 0 < i < |a| && a[i] == x;
      assert lt(a[0], x);
    }
  }

  lemma SameFirst<T(!new)>(lt: (T, T) -> bool, a: seq<T>, b: seq<T>)
    requires Asymmetric(lt) && StrictlySorted(lt, a) && StrictlySorted(lt, b)
    requires SameElements(a, b) && a != [] && b != []
    ensures a[0] == b[0]
  {
    assert a[0] in b && b[0] in a;
    var i :| 0 <= i < |b| && b[i] == a[0];
    var j :| 0 <= j < |a| && a[j] == b[0];
  }
}
