// Option, and a stable sort on an integer key. Identifiers of the system are
// UUID strings compared in one fixed order; here they are natural numbers.
module Basics {

  type Id = nat

  datatype Option<+T> = None | Some(value: T)

  ghost predicate IsEarliest(r: Option<int>, times: set<int>) {
    match r
    case None => times == {}
    case Some(m) => m in times && forall t :: t in times ==> m <= t
  }

  ghost predicate SortedBy<T>(key: T -> int, s: seq<T>) {
    forall i, j | 0 <= i < j < |s| :: key(s[i]) <= key(s[j])
  }

  // Inserts x before the first element whose key is not smaller, so equal keys keep their order.
  function Insert<T>(key: T -> int, x: T, s: seq<T>): (r: seq<T>)
    ensures |r| == |s| + 1
  {
    if s == [] || key(x) <= key(s[0]) then [x] + s else [s[0]] + Insert(key, x, s[1..])
  }

  function SortBy<T>(key: T -> int, s: seq<T>): (r: seq<T>)
    ensures |r| == |s|
  {
    if s == [] then [] else Insert(key, s[0], SortBy(key, s[1..]))
  }

  lemma {:induction false} InsertKeepsElements<T>(key: T -> int, x: T, s: seq<T>)
    ensures multiset(Insert(key, x, s)) == multiset(s) + multiset{x}
  {
    if s == [] || key(x) <= key(s[0]) {
    } else {
      assert s == [s[0]] + s[1..];
      InsertKeepsElements(key, x, s[1..]);
    }
  }

  lemma {:induction false} InsertKeepsOrder<T>(key: T -> int, x: T, s: seq<T>)
    requires SortedBy(key, s)
    ensures SortedBy(key, Insert(key, x, s))
  {
    if s == [] || key(x) <= key(s[0]) {
    } else {
      var rest := Insert(key, x, s[1..]);
      InsertKeepsOrder(key, x, s[1..]);
      InsertKeepsElements(key, x, s[1..]);
      forall i | 0 <= i < |rest| ensures key(s[0]) <= key(rest[i]) {
        assert rest[i] in multiset(rest);
        if rest[i] != x {
          assert rest[i] in multiset(s[1..]);
          assert rest[i] in s[1..];
        }
      }
    }
  }

  // Sorting permutes the elements and orders the keys.
  lemma {:induction false} SortByIsAPermutation<T>(key: T -> int, s: seq<T>)
    ensures multiset(SortBy(key, s)) == multiset(s)
    ensures SortedBy(key, SortBy(key, s))
  {
    if s != [] {
      SortByIsAPermutation(key, s[1..]);
      InsertKeepsElements(key, s[0], SortBy(key, s[1..]));
      InsertKeepsOrder(key, s[0], SortBy(key, s[1..]));
      assert s == [s[0]] + s[1..];
    }
  }
}
