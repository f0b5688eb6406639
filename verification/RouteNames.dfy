// The names that a route may carry, by what they are made of instead of by how they are tested.
module RouteNames {
  import opened Basics
  import opened PercentEncoding
  import opened VlessTcpTls

  // ---------- host names ----------

  ghost predicate IsLetterOrDigit(u: CodeUnit) {
    (48 <= u && u <= 57) || (65 <= u && u <= 90) || (97 <= u && u <= 122)
  }

  // Letters, digits and inner dashes, sixty-three at most.
  ghost predicate IsLabel(l: Text) {
    && 0 < |l| < 64 && l[0] != 45 && l[|l| - 1] != 45
    && forall u | u in l :: IsLetterOrDigit(u) || u == 45
  }

  function Dotted(labels: seq<Text>): Text
    requires labels != []
  {
    if |labels| == 1 then labels[0] else labels[0] + [46] + Dotted(labels[1..])
  }

  ghost predicate JoinsLabels(labels: seq<Text>, t: Text) {
    labels != [] && t == Dotted(labels) && forall l | l in labels :: IsLabel(l)
  }

  ghost predicate IsHostName(t: Text) {
    |t| <= 253 && exists labels :: JoinsLabels(labels, t)
  }

  lemma {:induction false} SplitJoins(t: Text)
    ensures Dotted(Split(t, DOT)) == t
  {
    if t != [] {
      SplitJoins(t[1..]);
      var rest, parts := Split(t[1..], DOT), Split(t, DOT);
      if t[0] == DOT {
        assert parts[1..] == rest;
      } else {
        assert parts[1..] == rest[1..];
      }
    }
  }

  lemma {:induction false} JoinedSplits(labels: seq<Text>)
    requires labels != [] && forall l | l in labels :: DOT !in l
    ensures Split(Dotted(labels), DOT) == labels
  {
    if |labels| == 1 {
      WholeSplits(labels[0]);
    } else {
      JoinedSplits(labels[1..]);
      FirstSplits(labels[0], Dotted(labels[1..]));
      assert labels == [labels[0]] + labels[1..];
    }
  }

  lemma {:induction false} WholeSplits(t: Text)
    requires DOT !in t
    ensures Split(t, DOT) == [t]
  {
    if t != [] {
      assert t == [t[0]] + t[1..];
      WholeSplits(t[1..]);
    }
  }

  lemma {:induction false} FirstSplits(first: Text, rest: Text)
    requires DOT !in first
    ensures Split(first + [DOT] + rest, DOT) == [first] + Split(rest, DOT)
  {
    var t := first + [DOT] + rest;
    if first == [] {
      assert t[1..] == rest;
    } else {
      assert t[1..] == first[1..] + [DOT] + rest && t[0] in first;
      FirstSplits(first[1..], rest);
      assert first == [first[0]] + first[1..];
    }
  }

  lemma LabelExactly(l: Text)
    ensures ValidLabel(l) <==> IsLabel(l)
  {
    if IsLabel(l) {
      assert l[0] in l && l[|l| - 1] in l;
    }
  }

  // The test for server names accepts exactly the host names.
  lemma HostNameExactly(t: Text)
    ensures IsValidTlsServerName(t) <==> IsHostName(t)
  {
    hide ValidLabel, IsLabel, Split, Dotted;
    forall l ensures ValidLabel(l) <==> IsLabel(l) {
      LabelExactly(l);
    }
    if IsValidTlsServerName(t) {
      SplitJoins(t);
      assert JoinsLabels(Split(t, DOT), t);
    }
    if IsHostName(t) {
      var labels :| JoinsLabels(labels, t);
      forall l | l in labels ensures DOT !in l {
        NoDotInLabel(l);
      }
      JoinedSplits(labels);
      NotEmpty(labels);
    }
  }

  lemma NoDotInLabel(l: Text)
    requires IsLabel(l)
    ensures DOT !in l
  {
  }

  lemma NotEmpty(labels: seq<Text>)
    requires labels != [] && IsLabel(labels[0])
    ensures Dotted(labels) != []
  {
  }

  // ---------- display names ----------

  // The code units that write code points.
  function Written(points: seq<int>): Text
    requires forall p | p in points :: IsScalar(p)
  {
    if points == [] then [] else Units(points[0]) + Written(points[1..])
  }

  ghost predicate WritesVisible(points: seq<int>, t: Text) {
    && (forall p | p in points :: IsScalar(p) && 32 <= p && !(127 <= p < 160))
    && t == Written(points)
  }

  // One to 128 code points, none of them a control character.
  ghost predicate IsDisplayName(t: Text) {
    exists points :: 0 < |points| < 129 && WritesVisible(points, t)
  }

  ghost predicate NoControls(t: Text) {
    forall u | u in t :: !IsControl(u)
  }

  ghost predicate Visible(points: seq<int>) {
    forall p | p in points :: 32 <= p && !(127 <= p < 160)
  }

  ghost predicate AllScalar(points: seq<int>) {
    forall p | p in points :: IsScalar(p)
  }

  lemma PointUnits(p: int, rest: Text)
    requires IsScalar(p)
    ensures WellFormed(Units(p) + rest) <==> WellFormed(rest)
    ensures CodePointLength(Units(p) + rest) == 1 + CodePointLength(rest)
    ensures NoControls(Units(p) + rest) <==> 32 <= p && !(127 <= p < 160) && NoControls(rest)
  {
    var t := Units(p) + rest;
    if p < 0x10000 {
      assert t[1..] == rest && t[0] == p;
      assert NoControls(t) <==> !IsControl(p) && NoControls(rest) by {
        OneMoreUnit(p, rest);
      }
    } else {
      assert t[2..] == rest && |t| >= 2;
      assert IsHighSurrogate(t[0]) && IsLowSurrogate(t[1]);
      assert t == [t[0]] + ([t[1]] + rest);
      OneMoreUnit(t[0], [t[1]] + rest);
      OneMoreUnit(t[1], rest);
    }
  }

  lemma OneMoreUnit(u: CodeUnit, rest: Text)
    ensures NoControls([u] + rest) <==> !IsControl(u) && NoControls(rest)
  {
    if NoControls([u] + rest) {
      assert ([u] + rest)[0] in [u] + rest;
      forall v | v in rest ensures !IsControl(v) {
        assert v in [u] + rest;
      }
    }
  }

  lemma {:induction false} WrittenReads(points: seq<int>)
    requires AllScalar(points)
    ensures WellFormed(Written(points)) && CodePointLength(Written(points)) == |points|
    ensures NoControls(Written(points)) <==> Visible(points)
  {
    hide WellFormed, CodePointLength, NoControls, Units;
    if points == [] {
      NothingWritten();
    } else {
      assert points == [points[0]] + points[1..];
      WrittenReads(points[1..]);
      PointUnits(points[0], Written(points[1..]));
      MoreVisible(points);
    }
  }

  lemma MoreVisible(points: seq<int>)
    requires points != []
    ensures Visible(points) <==> 32 <= points[0] && !(127 <= points[0] < 160) && Visible(points[1..])
  {
    assert points[0] in points;
    assert forall p | p in points[1..] :: p in points;
    assert forall p | p in points :: p == points[0] || p in points[1..];
  }

  lemma NothingWritten()
    ensures WellFormed([]) && CodePointLength([]) == 0 && NoControls([])
  {
  }

  lemma {:induction false} HasPoints(t: Text) returns (points: seq<int>)
    requires WellFormed(t)
    ensures AllScalar(points) && Written(points) == t
  {
    hide Units;
    if t == [] {
      points := [];
    } else {
      var rest := HasPoints(t[Width(t)..]);
      UnitsOfFirstPoint(t);
      points := [FirstPoint(t)] + rest;
      assert points[1..] == rest;
      assert t == t[..Width(t)] + t[Width(t)..];
    }
  }

  // The test for display names accepts exactly those, besides texts that are no writing at all.
  lemma DisplayNameExactly(t: Text)
    ensures IsValidVlessDisplayName(t) && WellFormed(t) <==> IsDisplayName(t)
  {
    hide WellFormed, CodePointLength, Written;
    if WellFormed(t) {
      var points := HasPoints(t);
      WrittenReads(points);
      assert IsValidVlessDisplayName(t) ==> WritesVisible(points, t);
    }
    if IsDisplayName(t) {
      var points :| 0 < |points| < 129 && WritesVisible(points, t);
      WrittenReads(points);
    }
  }
}
