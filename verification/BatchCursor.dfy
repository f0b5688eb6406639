// Working through a changing set of candidates in batches, each beginning after the
// last identifier of the batch before and wrapping around once.
module BatchCursor {
  import opened Basics
  import opened Queries

  predicate InRange(x: Id, after: Option<Id>, through: Option<Id>) {
    (after.Some? ==> after.value < x) && (through.Some? ==> x <= through.value)
  }

  function Range(s: set<Id>, after: Option<Id>, through: Option<Id>): set<Id> {
    set x | x in s && InRange(x, after, through)
  }

  ghost predicate Ascending(s: seq<Id>) {
    forall i, j | 0 <= i < j < |s| :: s[i] < s[j]
  }

  function Prefix(rows: seq<Id>, limit: nat): (q: seq<Id>)
    ensures |q| <= limit && forall y | y in q :: y in rows
  {
    if limit < |rows| then rows[..limit] else rows
  }

  // The first candidates of a range, in order.
  function Query(candidates: set<Id>, limit: nat, after: Option<Id>, through: Option<Id>): seq<Id> {
    Prefix(OrderedIds(Range(candidates, after, through)), limit)
  }

  lemma PrefixTakesFirst(rows: seq<Id>, limit: nat, x: Id)
    requires Ascending(rows) && x in rows && x !in Prefix(rows, limit)
    ensures |Prefix(rows, limit)| == limit && forall y | y in Prefix(rows, limit) :: y < x
  {
  }

  lemma QueryInRange(candidates: set<Id>, limit: nat, after: Option<Id>, through: Option<Id>)
    ensures var q := Query(candidates, limit, after, through);
            && Ascending(q) && |q| <= limit
            && (forall y | y in q :: y in candidates && InRange(y, after, through))
  {
  }

  lemma QueryTakesFirst(candidates: set<Id>, limit: nat, after: Option<Id>, through: Option<Id>, x: Id)
    requires x in candidates && InRange(x, after, through) && x !in Query(candidates, limit, after, through)
    ensures |Query(candidates, limit, after, through)| == limit
    ensures forall y | y in Query(candidates, limit, after, through) :: y < x
  {
    assert x in Range(candidates, after, through);
    PrefixTakesFirst(OrderedIds(Range(candidates, after, through)), limit, x);
  }

  lemma {:induction false} AscendingMembers(s: seq<Id>)
    requires Ascending(s)
    ensures |Members(s)| == |s|
  {
    if s != [] {
      var last := |s| - 1;
      AscendingMembers(s[..last]);
      assert s == s[..last] + [s[last]];
      assert Members(s) == Members(s[..last]) + {s[last]};
      assert s[last] !in s[..last];
    }
  }

  // ---------- how far a candidate is from the cursor ----------

  // Whether y lies on the way from the cursor, exclusive, around to x, inclusive.
  predicate OnTheWay(y: Id, cursor: Option<Id>, x: Id) {
    if cursor.None? then y <= x
    else if cursor.value < x then cursor.value < y <= x
    else cursor.value < y || y <= x
  }

  function Ahead(universe: set<Id>, cursor: Option<Id>, x: Id): set<Id> {
    set y | y in universe && OnTheWay(y, cursor, x)
  }

  function Distance(universe: set<Id>, cursor: Option<Id>, x: Id): nat {
    |Ahead(universe, cursor, x)|
  }

  lemma AheadShrinks(universe: set<Id>, cursor: Option<Id>, next: Option<Id>, x: Id, batch: set<Id>)
    requires forall y | y in batch :: y in universe && OnTheWay(y, cursor, x) && !OnTheWay(y, next, x)
    requires forall y | OnTheWay(y, next, x) :: OnTheWay(y, cursor, x)
    ensures Distance(universe, next, x) + |batch| <= Distance(universe, cursor, x)
  {
    var before, after := Ahead(universe, cursor, x), Ahead(universe, next, x);
    assert batch <= before && after <= before && batch !! after;
    assert |after + batch| == |after| + |batch|;
    SubsetIsSmaller(after + batch, before);
  }

  lemma {:induction false} SubsetIsSmaller(a: set<Id>, b: set<Id>)
    requires a <= b
    ensures |a| <= |b|
  {
    assert b == a + (b - a);
  }

  // What one batch picks, from the candidates seen by its first and its second query.
  function Batch(cursor: Option<Id>, limit: nat, first: set<Id>, second: set<Id>): seq<Id> {
    var ahead := Query(first, limit, cursor, None);
    if |ahead| < limit && cursor.Some? then ahead + Query(second, limit - |ahead|, None, cursor) else ahead
  }

  function CursorAfter(cursor: Option<Id>, batch: seq<Id>): Option<Id> {
    if batch == [] then cursor else Some(batch[|batch| - 1])
  }

  lemma LastIsGreatest(q: seq<Id>)
    requires Ascending(q) && q != []
    ensures q[|q| - 1] in q && forall y | y in q :: y <= q[|q| - 1]
  {
  }

  // A standing candidate that a batch does not pick is closer to the cursor by a whole batch.
  lemma NotPickedIsCloser(universe: set<Id>, cursor: Option<Id>, limit: nat, first: set<Id>, second: set<Id>, x: Id)
    requires 1 <= limit && first <= universe && second <= universe && x in first && x in second
    requires x !in Batch(cursor, limit, first, second)
    ensures var batch := Batch(cursor, limit, first, second);
            Distance(universe, CursorAfter(cursor, batch), x) + limit <= Distance(universe, cursor, x)
  {
    hide Query, Distance;
    var ahead := Query(first, limit, cursor, None);
    QueryInRange(first, limit, cursor, None);
    if cursor.None? || cursor.value < x {
      QueryTakesFirst(first, limit, cursor, None, x);
      LastIsGreatest(ahead);
      AscendingMembers(ahead);
      AheadShrinks(universe, cursor, Some(ahead[|ahead| - 1]), x, Members(ahead));
    } else if |ahead| == limit {
      LastIsGreatest(ahead);
      AscendingMembers(ahead);
      AheadShrinks(universe, cursor, Some(ahead[|ahead| - 1]), x, Members(ahead));
    } else {
      var around := Query(second, limit - |ahead|, None, cursor);
      QueryInRange(second, limit - |ahead|, None, cursor);
      QueryTakesFirst(second, limit - |ahead|, None, cursor, x);
      WrappedIsCloser(universe, cursor, x, ahead, around);
    }
  }

  // A batch that wraps around picks everything up to the end, and from the start again up to before x.
  lemma WrappedIsCloser(universe: set<Id>, cursor: Option<Id>, x: Id, ahead: seq<Id>, around: seq<Id>)
    requires cursor.Some? && x <= cursor.value && around != []
    requires Ascending(ahead) && forall y | y in ahead :: y in universe && cursor.value < y
    requires Ascending(around) && forall y | y in around :: y in universe && y < x
    ensures Distance(universe, CursorAfter(cursor, ahead + around), x) + |ahead + around|
            <= Distance(universe, cursor, x)
  {
    hide Distance;
    AscendingMembers(ahead);
    AscendingMembers(around);
    LastIsGreatest(around);
    assert Members(ahead) !! Members(around);
    var batch := Members(ahead) + Members(around);
    assert |batch| == |ahead| + |around|;
    AheadShrinks(universe, cursor, Some(around[|around| - 1]), x, batch);
  }

  lemma BatchNeverRepeats(cursor: Option<Id>, limit: nat, first: set<Id>, second: set<Id>)
    ensures var batch := Batch(cursor, limit, first, second);
            && |batch| <= limit
            && (forall i, j | 0 <= i < j < |batch| :: batch[i] != batch[j])
            && (forall y | y in batch :: y in first || y in second)
  {
    hide Query;
    var ahead := Query(first, limit, cursor, None);
    QueryInRange(first, limit, cursor, None);
    if |ahead| < limit && cursor.Some? {
      var around := Query(second, limit - |ahead|, None, cursor);
      QueryInRange(second, limit - |ahead|, None, cursor);
      forall i, j | 0 <= i < |ahead| && 0 <= j < |around| ensures around[j] < ahead[i] {
        assert ahead[i] in ahead && around[j] in around;
      }
    }
  }

  lemma DistanceIsBounded(universe: set<Id>, cursor: Option<Id>, x: Id)
    requires x in universe
    ensures 1 <= Distance(universe, cursor, x) <= |universe|
  {
    assert x in Ahead(universe, cursor, x);
    SubsetIsSmaller(Ahead(universe, cursor, x), universe);
    SubsetIsSmaller({x}, Ahead(universe, cursor, x));
  }

  // ---------- batch after batch ----------

  // The cursor after some batches, from what each saw in its two queries.
  function CursorAt(start: Option<Id>, limit: nat, firsts: seq<set<Id>>, seconds: seq<set<Id>>): Option<Id>
    requires |firsts| == |seconds|
  {
    if firsts == [] then start
    else
      var n := |firsts| - 1;
      var cursor := CursorAt(start, limit, firsts[..n], seconds[..n]);
      CursorAfter(cursor, Batch(cursor, limit, firsts[n], seconds[n]))
  }

  function BatchAt(start: Option<Id>, limit: nat, firsts: seq<set<Id>>, seconds: seq<set<Id>>, i: nat): seq<Id>
    requires i < |firsts| == |seconds|
  {
    Batch(CursorAt(start, limit, firsts[..i], seconds[..i]), limit, firsts[i], seconds[i])
  }

  // x is a candidate in every query, among candidates that come and go within the universe.
  ghost predicate Stands(x: Id, universe: set<Id>, firsts: seq<set<Id>>, seconds: seq<set<Id>>) {
    && x in universe
    && (forall s | s in firsts :: x in s && s <= universe)
    && (forall s | s in seconds :: x in s && s <= universe)
  }

  lemma NoBatch(start: Option<Id>, limit: nat)
    ensures CursorAt(start, limit, [], []) == start
  {
  }

  lemma OneMoreBatch(start: Option<Id>, limit: nat, firsts: seq<set<Id>>, seconds: seq<set<Id>>, n: nat)
    requires n < |firsts| == |seconds|
    ensures CursorAt(start, limit, firsts[..n + 1], seconds[..n + 1])
         == CursorAfter(CursorAt(start, limit, firsts[..n], seconds[..n]), BatchAt(start, limit, firsts, seconds, n))
  {
    assert firsts[..n + 1][..n] == firsts[..n] && seconds[..n + 1][..n] == seconds[..n];
  }

  // A standing candidate that was in none of the batches so far is closer by all of them.
  lemma {:induction false} NotYetPicked(
      start: Option<Id>, universe: set<Id>, limit: nat, x: Id, firsts: seq<set<Id>>, seconds: seq<set<Id>>, n: nat)
    requires 1 <= limit && n <= |firsts| == |seconds| && Stands(x, universe, firsts, seconds)
    requires forall i | 0 <= i < n :: x !in BatchAt(start, limit, firsts, seconds, i)
    ensures n * limit + Distance(universe, CursorAt(start, limit, firsts[..n], seconds[..n]), x) <= |universe|
  {
    hide Distance, Batch;
    if n == 0 {
      DistanceIsBounded(universe, start, x);
    } else {
      NotYetPicked(start, universe, limit, x, firsts, seconds, n - 1);
      OneMoreBatch(start, limit, firsts, seconds, n - 1);
      var before := CursorAt(start, limit, firsts[..n - 1], seconds[..n - 1]);
      assert firsts[n - 1] in firsts && seconds[n - 1] in seconds;
      NotPickedIsCloser(universe, before, limit, firsts[n - 1], seconds[n - 1], x);
    }
  }

  // No starvation: however the candidates change, one that stays is in one of any batches
  // that together could cover every identifier there is.
  lemma StandingIsPicked(
      start: Option<Id>, universe: set<Id>, limit: nat, x: Id, firsts: seq<set<Id>>, seconds: seq<set<Id>>)
    requires 1 <= limit && |firsts| == |seconds| && Stands(x, universe, firsts, seconds)
    requires |universe| <= |firsts| * limit
    ensures exists i :: 0 <= i < |firsts| && x in BatchAt(start, limit, firsts, seconds, i)
  {
    if forall i | 0 <= i < |firsts| :: x !in BatchAt(start, limit, firsts, seconds, i) {
      NotYetPicked(start, universe, limit, x, firsts, seconds, |firsts|);
      DistanceIsBounded(universe, CursorAt(start, limit, firsts[..|firsts|], seconds[..|firsts|]), x);
    }
  }

  class CandidateCursor {
    var cursor: Option<Id>

    constructor ()
      ensures cursor == None
    {
      cursor := None;
    }

    // The next batch; the candidates may change between its two queries.
    method FindCandidates(limit: nat, first: set<Id>, second: set<Id>) returns (candidates: seq<Id>)
      modifies this
      ensures candidates == Batch(old(cursor), limit, first, second)
      ensures cursor == CursorAfter(old(cursor), candidates)
    {
      candidates := Query(first, limit, cursor, None);
      if |candidates| < limit && cursor.Some? {
        candidates := candidates + Query(second, limit - |candidates|, None, cursor);
      }
      if |candidates| > 0 {
        cursor := Some(candidates[|candidates| - 1]);
      }
    }

    // Batch after batch, however the candidates change in between.
    method FindRepeatedly(limit: nat, firsts: seq<set<Id>>, seconds: seq<set<Id>>) returns (batches: seq<seq<Id>>)
      requires |firsts| == |seconds|
      modifies this
      ensures |batches| == |firsts| && cursor == CursorAt(old(cursor), limit, firsts, seconds)
      ensures forall i | 0 <= i < |firsts| :: batches[i] == BatchAt(old(cursor), limit, firsts, seconds, i)
    {
      hide Batch, CursorAt;
      batches := [];
      NoBatch(cursor, limit);
      for i := 0 to |firsts|
        invariant |batches| == i
        invariant cursor == CursorAt(old(cursor), limit, firsts[..i], seconds[..i])
        invariant forall k | 0 <= k < i :: batches[k] == BatchAt(old(cursor), limit, firsts, seconds, k)
      {
        var batch := FindCandidates(limit, firsts[i], seconds[i]);
        batches := batches + [batch];
        OneMoreBatch(old(cursor), limit, firsts, seconds, i);
      }
      assert firsts[..|firsts|] == firsts && seconds[..|seconds|] == seconds;
    }
  }
}
