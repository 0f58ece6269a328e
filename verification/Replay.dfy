// The comparison of a repeated CreateOrder request with the stored lines: same
// length, and every new line found in a map from cabinet to quantity in which
// the last stored line wins.
module Replay {
  import opened Tables

  // The map after the first i stored lines.
  function LastWins(stored: seq<Line>, i: nat): map<Id, int>
    requires i <= |stored|
  {
    if i == 0 then map[]
    else LastWins(stored, i - 1)[stored[i - 1].cabinetId := stored[i - 1].quantity]
  }

  predicate Matches(itemMap: map<Id, int>, line: Line) {
    line.cabinetId in itemMap && itemMap[line.cabinetId] == line.quantity
  }

  predicate Accepts(stored: seq<Line>, lines: seq<Line>) {
    && |stored| == |lines|
    && forall k :: 0 <= k < |lines| ==> Matches(LastWins(stored, |stored|), lines[k])
  }

  // Lines for the same cabinet have the same quantity.
  ghost predicate Consistent(lines: seq<Line>) {
    forall i, j :: 0 <= i < |lines| && 0 <= j < |lines| && lines[i].cabinetId == lines[j].cabinetId ==>
      lines[i].quantity == lines[j].quantity
  }

  ghost predicate DistinctCabinets(lines: seq<Line>) {
    forall i, j :: 0 <= i < j < |lines| ==> lines[i].cabinetId != lines[j].cabinetId
  }

  ghost predicate Permuted(a: seq<Line>, b: seq<Line>) {
    multiset(a) == multiset(b)
  }

  lemma {:induction false} MatchedLineIsStored(stored: seq<Line>, i: nat, line: Line)
    requires i <= |stored| && Matches(LastWins(stored, i), line)
    ensures line in stored[..i]
  {
    if stored[i - 1] != line {
      MatchedLineIsStored(stored, i - 1, line);
      assert stored[..i - 1] <= stored[..i];
    }
  }

  lemma {:induction false} StoredLineIsMatched(stored: seq<Line>, i: nat, line: Line)
    requires i <= |stored| && Consistent(stored) && line in stored[..i]
    ensures Matches(LastWins(stored, i), line)
  {
    if stored[i - 1].cabinetId != line.cabinetId {
      assert stored[..i] == stored[..i - 1] + [stored[i - 1]];
      StoredLineIsMatched(stored, i - 1, line);
    }
  }

  // The map check in terms of the stored lines: for each new line the last
  // stored line of its cabinet has its quantity.
  ghost predicate LastIs(stored: seq<Line>, i: nat, line: Line)
    requires i <= |stored|
  {
    exists j :: 0 <= j < i && stored[j] == line && forall k :: j < k < i ==> stored[k].cabinetId != line.cabinetId
  }

  lemma {:induction false} MatchesMeansLast(stored: seq<Line>, i: nat, line: Line)
    requires i <= |stored|
    ensures Matches(LastWins(stored, i), line) <==> LastIs(stored, i, line)
  {
    if i > 0 {
      MatchesMeansLast(stored, i - 1, line);
      if stored[i - 1].cabinetId != line.cabinetId {
        if LastIs(stored, i - 1, line) {
          var j :| 0 <= j < i - 1 && stored[j] == line
                && forall k :: j < k < i - 1 ==> stored[k].cabinetId != line.cabinetId;
          assert forall k :: j < k < i ==> stored[k].cabinetId != line.cabinetId;
        }
      }
    }
  }

  lemma AcceptsMeansLast(stored: seq<Line>, lines: seq<Line>)
    ensures Accepts(stored, lines) <==>
              |stored| == |lines| && forall l :: l in lines ==> LastIs(stored, |stored|, l)
  {
    forall l | l in lines ensures Matches(LastWins(stored, |stored|), l) <==> LastIs(stored, |stored|, l) {
      MatchesMeansLast(stored, |stored|, l);
    }
    if |stored| == |lines| && forall l :: l in lines ==> LastIs(stored, |stored|, l) {
      forall k | 0 <= k < |lines| ensures Matches(LastWins(stored, |stored|), lines[k]) {
        assert lines[k] in lines;
      }
    }
  }

  // Over consistent stored lines (which every committed order has) the map
  // check is membership, in whatever order the rows were listed.
  lemma AcceptsIffMembers(stored: seq<Line>, lines: seq<Line>)
    requires Consistent(stored)
    ensures Accepts(stored, lines) <==> |stored| == |lines| && forall l :: l in lines ==> l in stored
  {
    assert stored[..|stored|] == stored;
    if Accepts(stored, lines) {
      forall l | l in lines ensures l in stored {
        MatchedLineIsStored(stored, |stored|, l);
      }
    }
    if |stored| == |lines| && forall l :: l in lines ==> l in stored {
      forall k | 0 <= k < |lines| ensures Matches(LastWins(stored, |stored|), lines[k]) {
        StoredLineIsMatched(stored, |stored|, lines[k]);
      }
    }
  }

  lemma {:induction false} DistinctMultiplicity(lines: seq<Line>, l: Line)
    requires DistinctCabinets(lines)
    ensures multiset(lines)[l] <= 1
  {
    if |lines| > 0 {
      DistinctMultiplicity(lines[1..], l);
      assert lines == [lines[0]] + lines[1..];
      if lines[0] == l {
        assert l !in lines[1..];
      }
    }
  }

  lemma SubMultisetOfEqualSize(a: multiset<Line>, b: multiset<Line>)
    requires a <= b && |a| == |b|
    ensures a == b
  {
    assert b == a + (b - a);
    assert |b - a| == 0;
  }

  // Soundness: an accepted request with distinct cabinets is a permutation of
  // the stored lines.
  lemma AcceptedDistinctRequestIsPermutation(stored: seq<Line>, lines: seq<Line>)
    requires DistinctCabinets(lines) && Accepts(stored, lines)
    ensures Permuted(stored, lines)
  {
    forall l | l in multiset(lines) ensures multiset(lines)[l] <= multiset(stored)[l] {
      DistinctMultiplicity(lines, l);
      var k :| 0 <= k < |lines| && lines[k] == l;
      MatchedLineIsStored(stored, |stored|, l);
      assert stored[..|stored|] == stored;
    }
    SubMultisetOfEqualSize(multiset(lines), multiset(stored));
  }

  // Completeness, exactly: the stored lines in any order are accepted if and
  // only if lines for the same cabinet agree on the quantity.
  lemma PermutationAcceptedIffConsistent(stored: seq<Line>, lines: seq<Line>)
    requires Permuted(stored, lines)
    ensures Accepts(stored, lines) <==> Consistent(stored)
  {
    assert |multiset(stored)| == |stored| && |multiset(lines)| == |lines|;
    assert forall l :: l in lines ==> l in multiset(lines);
    assert forall l :: l in stored ==> l in multiset(stored);
    if Consistent(stored) {
      AcceptsIffMembers(stored, lines);
    }
    if Accepts(stored, lines) {
      forall i | 0 <= i < |stored|
        ensures Matches(LastWins(stored, |stored|), stored[i])
      {
        assert stored[i] in multiset(lines);
        var k :| 0 <= k < |lines| && lines[k] == stored[i];
      }
    }
  }

  // Two lines of the request name the same cabinet with different quantities.
  ghost predicate Conflicting(lines: seq<Line>) {
    !Consistent(lines)
  }

  function LongerThanAll(lines: seq<Line>): (id: Id)
    ensures forall l :: l in lines ==> |l.cabinetId| < |id|
  {
    if lines == [] then "x"
    else
      var rest := LongerThanAll(lines[1..]);
      assert lines == [lines[0]] + lines[1..];
      if |lines[0].cabinetId| < |rest| then rest else lines[0].cabinetId + "x"
  }

  // A request that repeats a (cabinet, quantity) line is accepted against
  // stored lines that are no permutation of it: the repeated line is replaced
  // by a line for a cabinet the request never names.
  lemma RepeatedLineAcceptsOther(lines: seq<Line>, i: nat, j: nat) returns (stored: seq<Line>)
    requires i < j < |lines| && lines[i] == lines[j] && Consistent(lines)
    ensures Consistent(stored) && Accepts(stored, lines) && !Permuted(stored, lines)
  {
    var other := Line(LongerThanAll(lines), 1);
    stored := lines[j := other];
    forall a, b | 0 <= a < |stored| && 0 <= b < |stored| && stored[a].cabinetId == stored[b].cabinetId
      ensures stored[a].quantity == stored[b].quantity
    {
      assert lines[a] in lines && lines[b] in lines;
    }
    forall l | l in lines ensures l in stored {
      var k :| 0 <= k < |lines| && lines[k] == l;
      assert stored[if k == j then i else k] == l;
    }
    AcceptsIffMembers(stored, lines);
    assert stored[j] == other && other in multiset(stored);
    assert other !in lines && other !in multiset(lines);
  }

  // Exactly which requests the check is sound for: acceptance against the lines
  // of a committed order implies being a permutation of them if and only if the
  // request has distinct cabinets or contradicts itself (and is then never
  // accepted).
  lemma ReplaySoundExactlyWhen(lines: seq<Line>)
    ensures (forall stored :: Consistent(stored) && Accepts(stored, lines) ==> Permuted(stored, lines))
       <==> (DistinctCabinets(lines) || Conflicting(lines))
  {
    if DistinctCabinets(lines) {
      forall stored | Consistent(stored) && Accepts(stored, lines) ensures Permuted(stored, lines) {
        AcceptedDistinctRequestIsPermutation(stored, lines);
      }
    } else if Conflicting(lines) {
      forall stored | Consistent(stored) ensures !Accepts(stored, lines) {
        AcceptsIffMembers(stored, lines);
      }
    } else {
      var i, j :| 0 <= i < j < |lines| && lines[i].cabinetId == lines[j].cabinetId;
      var stored := RepeatedLineAcceptsOther(lines, i, j);
    }
  }
}
