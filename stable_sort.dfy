/**
 * LINQ's `OrderBy`/`OrderByDescending`/`ThenBy` as one stable sort. The order
 * is given as a total preorder `le` ("`a` may come before `b`"); elements that
 * `le` cannot tell apart keep their input order, as LINQ documents for its sorts.
 */
module StableSort {

  /** `le` is total and transitive: what a key comparison in LINQ provides. */
  ghost predicate TotalPreorder<T(!new)>(le: (T, T) -> bool) {
    && (forall a, b :: le(a, b) || le(b, a))
    && (forall a, b, c :: le(a, b) && le(b, c) ==> le(a, c))
  }

  predicate Sorted<T>(s: seq<T>, le: (T, T) -> bool) {
    forall i, j :: 0 <= i < j < |s| ==> le(s[i], s[j])
  }

  /** `a` and `b` have equal sort keys. */
  predicate Equivalent<T>(a: T, b: T, le: (T, T) -> bool) {
    le(a, b) && le(b, a)
  }

  /** The elements of `s` with the same key as `k`, in the order of `s`. */
  function Ties<T>(s: seq<T>, k: T, le: (T, T) -> bool): seq<T> {
    if s == [] then []
    else (if Equivalent(s[0], k, le) then [s[0]] else []) + Ties(s[1..], k, le)
  }

  /** Places `x` before the first element it may precede. */
  function Insert<T>(x: T, s: seq<T>, le: (T, T) -> bool): (r: seq<T>)
    ensures multiset(r) == multiset(s) + multiset{x}
  {
    if s == [] then [x]
    else if le(x, s[0]) then [x] + s
    else
      assert s == [s[0]] + s[1..];
      [s[0]] + Insert(x, s[1..], le)
  }

  /** Insertion sort from the back: the first element is inserted last. */
  function Sort<T>(s: seq<T>, le: (T, T) -> bool): (r: seq<T>)
    ensures multiset(r) == multiset(s)
  {
    if s == [] then []
    else
      assert s == [s[0]] + s[1..];
      Insert(s[0], Sort(s[1..], le), le)
  }

  lemma {:induction false} InsertSorted<T(!new)>(x: T, s: seq<T>, le: (T, T) -> bool)
    requires TotalPreorder(le) && Sorted(s, le)
    ensures Sorted(Insert(x, s, le), le)
  {
    if s != [] && !le(x, s[0]) {
      var t := Insert(x, s[1..], le);
      InsertSorted(x, s[1..], le);
      assert forall y :: y in multiset(t) ==> y == x || y in s[1..];
      assert forall j :: 0 <= j < |t| ==> t[j] in multiset(t);
    }
  }

  lemma {:induction false} SortSorted<T(!new)>(s: seq<T>, le: (T, T) -> bool)
    requires TotalPreorder(le)
    ensures Sorted(Sort(s, le), le)
  {
    if s != [] {
      SortSorted(s[1..], le);
      InsertSorted(s[0], Sort(s[1..], le), le);
    }
  }

  lemma {:induction false} TiesAppend<T>(a: seq<T>, b: seq<T>, k: T, le: (T, T) -> bool)
    ensures Ties(a + b, k, le) == Ties(a, k, le) + Ties(b, k, le)
  {
    if a == [] {
      assert a + b == b;
    } else {
      assert (a + b)[0] == a[0] && (a + b)[1..] == a[1..] + b;
      TiesAppend(a[1..], b, k, le);
    }
  }

  /** Inserting `x` adds it in front of its ties and leaves every other class alone. */
  lemma {:induction false} InsertTies<T(!new)>(x: T, s: seq<T>, k: T, le: (T, T) -> bool)
    requires TotalPreorder(le)
    ensures Ties(Insert(x, s, le), k, le)
         == (if Equivalent(x, k, le) then [x] else []) + Ties(s, k, le)
  {
    if s == [] {
    } else if le(x, s[0]) {
      TiesAppend([x], s, k, le);
    } else {
      var t := Insert(x, s[1..], le);
      var here := if Equivalent(x, k, le) then [x] else [];
      InsertTies(x, s[1..], k, le);
      TiesAppend([s[0]], t, k, le);
      TiesAppend([s[0]], s[1..], k, le);
      assert s == [s[0]] + s[1..];
      if Equivalent(x, k, le) {
        TieBlocked(x, s[0], k, le);
      }
      calc {
        Ties(Insert(x, s, le), k, le);
        Ties([s[0]] + t, k, le);
        Ties([s[0]], k, le) + (here + Ties(s[1..], k, le));
        { assert Ties([s[0]], k, le) == [] || here == []; }
        here + (Ties([s[0]], k, le) + Ties(s[1..], k, le));
        here + Ties(s, k, le);
      }
    }
  }

  /** An element that `x` may not precede is not tied with `x`'s class. */
  lemma TieBlocked<T(!new)>(x: T, y: T, k: T, le: (T, T) -> bool)
    requires TotalPreorder(le)
    requires Equivalent(x, k, le) && !le(x, y)
    ensures !Equivalent(y, k, le)
  {
  }

  /** Stability: every class of equal keys keeps its input order. */
  lemma {:induction false} SortStable<T(!new)>(s: seq<T>, k: T, le: (T, T) -> bool)
    requires TotalPreorder(le)
    ensures Ties(Sort(s, le), k, le) == Ties(s, k, le)
  {
    if s != [] {
      SortStable(s[1..], k, le);
      InsertTies(s[0], Sort(s[1..], le), k, le);
    }
  }
}
