// Stable insertion sort, the meaning of ORDER BY and of `list.sort`.
module Sorting {

  // After every element `x` does not precede.
  function Insert<T>(le: (T, T) -> bool, x: T, s: seq<T>): seq<T> {
    if s == [] || le(s[|s| - 1], x) then s + [x]
    else Insert(le, x, s[..|s| - 1]) + [s[|s| - 1]]
  }

  function Sort<T>(le: (T, T) -> bool, s: seq<T>): seq<T> {
    if s == [] then [] else Insert(le, s[|s| - 1], Sort(le, s[..|s| - 1]))
  }

  ghost predicate Sorted<T>(le: (T, T) -> bool, s: seq<T>) {
    forall i, j | 0 <= i < j < |s| :: le(s[i], s[j])
  }

  ghost predicate TotalPreorder<T(!new)>(le: (T, T) -> bool) {
    && (forall a, b :: le(a, b) || le(b, a))
    && (forall a, b, c :: le(a, b) && le(b, c) ==> le(a, c))
  }

  lemma {:induction false} InsertKeepsElements<T>(le: (T, T) -> bool, x: T, s: seq<T>)
    ensures multiset(Insert(le, x, s)) == multiset(s) + multiset{x}
  {
    if s != [] && !le(s[|s| - 1], x) {
      InsertKeepsElements(le, x, s[..|s| - 1]);
      assert s == s[..|s| - 1] + [s[|s| - 1]];
    }
  }

  lemma {:induction false} SortKeepsElements<T>(le: (T, T) -> bool, s: seq<T>)
    ensures multiset(Sort(le, s)) == multiset(s)
  {
    if s != [] {
      SortKeepsElements(le, s[..|s| - 1]);
      InsertKeepsElements(le, s[|s| - 1], Sort(le, s[..|s| - 1]));
      assert s == s[..|s| - 1] + [s[|s| - 1]];
    }
  }

  lemma {:induction false} InsertSorts<T(!new)>(le: (T, T) -> bool, x: T, s: seq<T>)
    requires TotalPreorder(le) && Sorted(le, s)
    ensures Sorted(le, Insert(le, x, s))
  {
    if s == [] || le(s[|s| - 1], x) {
      forall i | 0 <= i < |s| ensures le(s[i], x) {
        assert i == |s| - 1 || le(s[i], s[|s| - 1]);
      }
    } else {
      var front, last := s[..|s| - 1], s[|s| - 1];
      InsertSorts(le, x, front);
      InsertKeepsElements(le, x, front);
      var r := Insert(le, x, front);
      forall i | 0 <= i < |r| ensures le(r[i], last) {
        assert r[i] in multiset(r);
        assert r[i] in front || r[i] == x;
        assert le(last, x) || le(x, last);
      }
    }
  }

  lemma {:induction false} SortSorts<T(!new)>(le: (T, T) -> bool, s: seq<T>)
    requires TotalPreorder(le)
    ensures Sorted(le, Sort(le, s))
  {
    if s != [] {
      SortSorts(le, s[..|s| - 1]);
      InsertSorts(le, s[|s| - 1], Sort(le, s[..|s| - 1]));
    }
  }

  // No two different elements of `s` tie.
  ghost predicate Tieless<T(!new)>(le: (T, T) -> bool, s: multiset<T>) {
    forall a, b | a in s && b in s && le(a, b) && le(b, a) :: a == b
  }

  lemma LastIsGreatest<T(!new)>(le: (T, T) -> bool, s: seq<T>, x: T)
    requires TotalPreorder(le) && Sorted(le, s) && x in multiset(s)
    ensures s != [] && le(x, s[|s| - 1])
  {
    var i :| 0 <= i < |s| && s[i] == x;
    assert le(x, x);
  }

  lemma DropLast<T>(s: seq<T>)
    requires s != []
    ensures s[|s| - 1] in multiset(s)
    ensures multiset(s[..|s| - 1]) == multiset(s) - multiset{s[|s| - 1]}
  {
    assert s == s[..|s| - 1] + [s[|s| - 1]];
  }

  lemma SameLast<T(!new)>(le: (T, T) -> bool, a: seq<T>, b: seq<T>)
    requires TotalPreorder(le) && multiset(a) == multiset(b) && Tieless(le, multiset(a))
    requires Sorted(le, a) && Sorted(le, b) && a != []
    ensures b != [] && a[|a| - 1] == b[|b| - 1]
  {
    DropLast(a);
    LastIsGreatest(le, b, a[|a| - 1]);
    DropLast(b);
    LastIsGreatest(le, a, b[|b| - 1]);
  }

  lemma FrontsStayTieless<T(!new)>(le: (T, T) -> bool, s: seq<T>)
    requires s != [] && Tieless(le, multiset(s))
    ensures Tieless(le, multiset(s[..|s| - 1]))
  {
    DropLast(s);
  }

  lemma FrontsHoldTheSame<T>(a: seq<T>, b: seq<T>)
    requires a != [] && b != [] && multiset(a) == multiset(b) && a[|a| - 1] == b[|b| - 1]
    ensures multiset(a[..|a| - 1]) == multiset(b[..|b| - 1])
  {
    DropLast(a);
    DropLast(b);
  }

  lemma FrontsStaySorted<T(!new)>(le: (T, T) -> bool, s: seq<T>)
    requires s != [] && Sorted(le, s)
    ensures Sorted(le, s[..|s| - 1])
  {}

  lemma SameFrontAndLast<T>(a: seq<T>, b: seq<T>)
    requires a != [] && b != [] && a[..|a| - 1] == b[..|b| - 1] && a[|a| - 1] == b[|b| - 1]
    ensures a == b
  {
    assert a == a[..|a| - 1] + [a[|a| - 1]];
    assert b == b[..|b| - 1] + [b[|b| - 1]];
  }

  lemma EmptyHoldsNothing<T>(s: seq<T>)
    requires multiset(s) == multiset{}
    ensures s == []
  {
    assert |multiset(s)| == |s|;
  }

  // Without ties there is one way to put a collection in order.
  lemma {:induction false} OrderIsUnique<T(!new)>(le: (T, T) -> bool, a: seq<T>, b: seq<T>)
    requires TotalPreorder(le) && multiset(a) == multiset(b) && Tieless(le, multiset(a))
    requires Sorted(le, a) && Sorted(le, b)
    ensures a == b
  {
    if a != [] {
      SameLast(le, a, b);
      FrontsHoldTheSame(a, b);
      FrontsStayTieless(le, a);
      FrontsStaySorted(le, a);
      FrontsStaySorted(le, b);
      OrderIsUnique(le, a[..|a| - 1], b[..|b| - 1]);
      SameFrontAndLast(a, b);
    } else {
      EmptyHoldsNothing(b);
    }
  }
}
