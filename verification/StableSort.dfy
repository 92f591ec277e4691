/** The stable sort of the standard library, as the sources call it, and what it promises. */
module StableSort {
  import opened Prelude

  /** `x`, which came before everything in `s`, goes in front of the first element it does not exceed. */
  function Insert<T>(x: T, s: seq<T>, leq: (T, T) -> bool): seq<T> {
    if s == [] || leq(x, s[0]) then [x] + s else [s[0]] + Insert(x, s[1..], leq)
  }

  function SortBy<T>(s: seq<T>, leq: (T, T) -> bool): seq<T> {
    if s == [] then [] else Insert(s[0], SortBy(s[1..], leq), leq)
  }

  ghost predicate TotalPreorder<T(!new)>(leq: (T, T) -> bool) {
    && (forall x, y :: leq(x, y) || leq(y, x))
    && (forall x, y, z :: leq(x, y) && leq(y, z) ==> leq(x, z))
  }

  ghost predicate Ordered<T>(s: seq<T>, leq: (T, T) -> bool) {
    forall i, j :: 0 <= i < j < |s| ==> leq(s[i], s[j])
  }

  lemma {:induction false} InsertMultiset<T>(x: T, s: seq<T>, leq: (T, T) -> bool)
    ensures multiset(Insert(x, s, leq)) == multiset{x} + multiset(s)
  {
    if s != [] && !leq(x, s[0]) {
      InsertMultiset(x, s[1..], leq);
      assert s == [s[0]] + s[1..];
    }
  }

  lemma {:induction false} SortMultiset<T>(s: seq<T>, leq: (T, T) -> bool)
    ensures multiset(SortBy(s, leq)) == multiset(s)
    ensures |SortBy(s, leq)| == |s|
  {
    if s != [] {
      SortMultiset(s[1..], leq);
      InsertMultiset(s[0], SortBy(s[1..], leq), leq);
      assert s == [s[0]] + s[1..];
    }
    assert |multiset(SortBy(s, leq))| == |SortBy(s, leq)|;
  }

  lemma {:induction false} InsertOrdered<T(!new)>(x: T, s: seq<T>, leq: (T, T) -> bool)
    requires TotalPreorder(leq) && Ordered(s, leq)
    ensures Ordered(Insert(x, s, leq), leq)
  {
    if s != [] && !leq(x, s[0]) {
      InsertOrdered(x, s[1..], leq);
      var rest := Insert(x, s[1..], leq);
      InsertMultiset(x, s[1..], leq);
      forall j | 0 <= j < |rest|
        ensures leq(s[0], rest[j])
      {
        assert rest[j] in multiset(rest);
        assert rest[j] == x || rest[j] in s[1..];
      }
    }
  }

  lemma {:induction false} SortOrdered<T(!new)>(s: seq<T>, leq: (T, T) -> bool)
    requires TotalPreorder(leq)
    ensures Ordered(SortBy(s, leq), leq)
  {
    if s != [] {
      SortOrdered(s[1..], leq);
      InsertOrdered(s[0], SortBy(s[1..], leq), leq);
    }
  }

  lemma {:induction false} InsertStable<T>(x: T, s: seq<T>, leq: (T, T) -> bool, p: T -> bool)
    requires p(x) ==> forall y :: y in s && p(y) ==> leq(x, y)
    ensures Filter(Insert(x, s, leq), p) == Filter([x] + s, p)
  {
    assert ([x] + s)[1..] == s;
    if s != [] && !leq(x, s[0]) {
      InsertStable(x, s[1..], leq, p);
      assert ([x] + s[1..])[1..] == s[1..];
      assert Insert(x, s, leq)[1..] == Insert(x, s[1..], leq);
    }
  }

  /** Elements that tie keep their order: whatever class of mutually tying elements is looked at,
      the sort lists it exactly as the input did. */
  lemma {:induction false} SortStable<T(!new)>(s: seq<T>, leq: (T, T) -> bool, p: T -> bool)
    requires forall x, y :: p(x) && p(y) ==> leq(x, y)
    ensures Filter(SortBy(s, leq), p) == Filter(s, p)
  {
    if s != [] {
      SortStable(s[1..], leq, p);
      InsertStable(s[0], SortBy(s[1..], leq), leq, p);
      assert ([s[0]] + SortBy(s[1..], leq))[1..] == SortBy(s[1..], leq);
    }
  }
}
