// Rows of a query: its results in ascending order.
module Queries {
  import opened Basics

  ghost predicate IsLeast(m: int, s: set<int>) {
    m in s && forall x | x in s :: m <= x
  }

  predicate Inhabited(s: set<int>) {
    exists x :: x in s
  }

  lemma {:induction false} LeastExists(s: set<int>, y: int)
    requires y in s
    ensures exists m :: IsLeast(m, s)
    decreases s
  {
    var rest := s - {y};
    assert s == rest + {y};
    if x :| x in rest {
      LeastExists(rest, x);
      var m :| IsLeast(m, rest);
      var least := if y <= m then y else m;
      assert IsLeast(least, s);
    } else {
      assert IsLeast(y, s);
    }
  }

  function Least(s: set<int>): (m: int)
    requires Inhabited(s)
    ensures IsLeast(m, s)
  {
    assert exists m :: IsLeast(m, s) by {
      var y :| y in s;
      LeastExists(s, y);
    }
    var m :| m in s && forall x | x in s :: m <= x;
    m
  }

  lemma LeastFirst(s: set<int>, rest: seq<int>)
    requires Inhabited(s) && |rest| == |s| - 1
    requires forall x :: x in rest <==> x in s && x != Least(s)
    requires forall i, j | 0 <= i < j < |rest| :: rest[i] < rest[j]
    ensures var r := [Least(s)] + rest;
            && |r| == |s| && (forall x :: x in r <==> x in s)
            && forall i, j | 0 <= i < j < |r| :: r[i] < r[j]
  {
    forall j | 0 <= j < |rest| ensures Least(s) < rest[j] {
      assert rest[j] in rest;
    }
  }

  // The rows of a query in ascending order.
  function Ordered(s: set<int>): (r: seq<int>)
    ensures |r| == |s|
    ensures forall x :: x in r <==> x in s
    ensures forall i, j | 0 <= i < j < |r| :: r[i] < r[j]
  {
    if Inhabited(s) then
      var rest := Ordered(s - {Least(s)});
      LeastFirst(s, rest);
      [Least(s)] + rest
    else
      assert s == {};
      []
  }

  // The identifiers among which none precedes a smaller one.
  function OrderedIds(s: set<Id>): (r: seq<Id>)
    ensures forall x: Id :: x in r <==> x in s
    ensures forall i, j | 0 <= i < j < |r| :: r[i] < r[j]
  {
    assert forall i | 0 <= i < |Ordered(s)| :: Ordered(s)[i] in s;
    Ordered(s)
  }

  function Members(s: seq<Id>): set<Id> {
    set x | x in s
  }

  // Taking one more row in order: it was not among the rows before, and they are one more.
  lemma OneMoreRow(s: set<Id>, i: nat)
    requires i < |OrderedIds(s)|
    ensures OrderedIds(s)[i] in s && OrderedIds(s)[i] !in Members(OrderedIds(s)[..i])
    ensures Members(OrderedIds(s)[..i + 1]) == Members(OrderedIds(s)[..i]) + {OrderedIds(s)[i]}
  {
    var r := OrderedIds(s);
    assert r[..i + 1] == r[..i] + [r[i]];
  }

  lemma AllRows(s: set<Id>)
    ensures Members(OrderedIds(s)[..|OrderedIds(s)|]) == s
  {
  }

  function First(s: set<Id>): (r: Option<Id>)
    ensures r.None? <==> s == {}
    ensures r.Some? ==> r.value in s && forall x | x in s :: r.value <= x
  {
    var rows := Ordered(s);
    if rows == [] then None else assert rows[0] in s; Some(rows[0])
  }
}
