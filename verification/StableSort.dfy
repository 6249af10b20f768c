/** Array.prototype.sort with a comparator: a stable sort. */
module StableSort {

  ghost predicate TotalPreorder<T(!new)>(before: (T, T) -> bool) {
    (forall a, b :: before(a, b) || before(b, a)) &&
    (forall a, b, c :: before(a, b) && before(b, c) ==> before(a, c))
  }

  ghost predicate Sorted<T>(s: seq<T>, before: (T, T) -> bool) {
    forall i, j :: 0 <= i < j < |s| ==> before(s[i], s[j])
  }

  /** Puts x in front of the first element it is not after, so equal elements keep their order. */
  function Insert<T>(x: T, s: seq<T>, before: (T, T) -> bool): seq<T> {
    if s == [] || before(x, s[0]) then [x] + s else [s[0]] + Insert(x, s[1..], before)
  }

  function Sort<T>(s: seq<T>, before: (T, T) -> bool): seq<T> {
    if s == [] then [] else Insert(s[0], Sort(s[1..], before), before)
  }

  lemma {:induction false} InsertKeeps<T(!new)>(x: T, s: seq<T>, before: (T, T) -> bool)
    ensures multiset(Insert(x, s, before)) == multiset(s) + multiset{x}
    decreases |s|
  {
    if s != [] {
      assert s == [s[0]] + s[1..];
      if !before(x, s[0]) {
        InsertKeeps(x, s[1..], before);
      }
    }
  }

  lemma {:induction false} InsertSorts<T(!new)>(x: T, s: seq<T>, before: (T, T) -> bool)
    requires TotalPreorder(before) && Sorted(s, before)
    ensures Sorted(Insert(x, s, before), before)
    decreases |s|
  {
    if s != [] && !before(x, s[0]) {
      var (rest, r) := (s[1..], Insert(x, s[1..], before));
      InsertSorts(x, rest, before);
      InsertKeeps(x, rest, before);
      forall j | 0 <= j < |r|
        ensures before(s[0], r[j])
      {
        assert r[j] in multiset(r);
        assert r[j] == x || r[j] in rest;
      }
    }
  }

  lemma {:induction false} SortSorts<T(!new)>(s: seq<T>, before: (T, T) -> bool)
    requires TotalPreorder(before)
    ensures Sorted(Sort(s, before), before)
    ensures multiset(Sort(s, before)) == multiset(s) && |Sort(s, before)| == |s|
    decreases |s|
  {
    if s != [] {
      assert s == [s[0]] + s[1..];
      SortSorts(s[1..], before);
      InsertSorts(s[0], Sort(s[1..], before), before);
      InsertKeeps(s[0], Sort(s[1..], before), before);
      assert |multiset(Sort(s, before))| == |multiset(s)|;
    }
  }

  /** The elements of s that stand neither before nor after x, in order. */
  function Ties<T>(s: seq<T>, x: T, before: (T, T) -> bool): seq<T> {
    if s == [] then []
    else if before(s[0], x) && before(x, s[0]) then [s[0]] + Ties(s[1..], x, before)
    else Ties(s[1..], x, before)
  }

  lemma {:induction false} InsertKeepsTies<T(!new)>(y: T, s: seq<T>, x: T, before: (T, T) -> bool)
    requires TotalPreorder(before)
    ensures Ties(Insert(y, s, before), x, before) == Ties([y] + s, x, before)
    decreases |s|
  {
    assert ([y] + s)[1..] == s;
    if s != [] && !before(y, s[0]) {
      var r := Insert(y, s[1..], before);
      InsertKeepsTies(y, s[1..], x, before);
      assert ([s[0]] + r)[1..] == r && ([y] + s[1..])[1..] == s[1..];
    }
  }

  /** Elements the comparator does not tell apart keep their order. */
  lemma {:induction false} SortKeepsTies<T(!new)>(s: seq<T>, x: T, before: (T, T) -> bool)
    requires TotalPreorder(before)
    ensures Ties(Sort(s, before), x, before) == Ties(s, x, before)
    decreases |s|
  {
    if s != [] {
      SortKeepsTies(s[1..], x, before);
      var r := Sort(s[1..], before);
      InsertKeepsTies(s[0], r, x, before);
      assert ([s[0]] + r)[1..] == r;
    }
  }

  /** An element of a in b, and b without it. */
  lemma TakeOut<T>(a: seq<T>, b: seq<T>) returns (i: nat)
    requires |a| > 0 && multiset(a) <= multiset(b)
    ensures i < |b| && b[i] == a[0] && a == [a[0]] + a[1..] && b == b[..i] + [b[i]] + b[i + 1..]
    ensures multiset(a[1..]) <= multiset(b[..i] + b[i + 1..])
    ensures multiset(a) == multiset(b) ==> multiset(a[1..]) == multiset(b[..i] + b[i + 1..])
  {
    assert a == [a[0]] + a[1..];
    assert a[0] in multiset(a) && a[0] in multiset(b);
    i :| 0 <= i < |b| && b[i] == a[0];
    assert b == b[..i] + [b[i]] + b[i + 1..];
    var rest := b[..i] + b[i + 1..];
    assert multiset(a) == multiset{a[0]} + multiset(a[1..]);
    assert multiset(b) == multiset(rest) + multiset{a[0]};
    forall x
      ensures multiset(a[1..])[x] <= multiset(rest)[x]
    {
      assert multiset(a)[x] <= multiset(b)[x];
    }
    if multiset(a) == multiset(b) {
      assert multiset(a[1..]) == multiset(a) - multiset{a[0]} == multiset(rest);
    }
  }
}
