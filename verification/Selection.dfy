/**
 SelectWellPlacedUes of contrib/nr/examples/cttc-3gpp-indoor-calibration.cc: the first terminals
 that keep their distance from every base station.  Coordinates are real numbers; comparing the
 root of a sum of squares with a bound is comparing the squares.
 */
module Selection {
  datatype Position = Position(x: real, y: real)

  datatype Ue = Ue(id: nat, position: Position)

  /** distance < minDistance */
  predicate TooClose(ue: Position, gnb: Position, minDistance: real) {
    var x, y := ue.x - gnb.x, ue.y - gnb.y;
    minDistance > 0.0 && x * x + y * y < minDistance * minDistance
  }

  /** The test on the squares is the test on the planar distance, the root of the sum of the squares. */
  lemma TooCloseIsDistance(ue: Position, gnb: Position, minDistance: real, distance: real)
    requires distance >= 0.0
    requires distance * distance == (ue.x - gnb.x) * (ue.x - gnb.x) + (ue.y - gnb.y) * (ue.y - gnb.y)
    ensures TooClose(ue, gnb, minDistance) <==> distance < minDistance
  {
    if minDistance > 0.0 {
      SquaresCompare(distance, minDistance);
    }
  }

  lemma SquaresCompare(a: real, b: real)
    requires a >= 0.0 && b > 0.0
    ensures a < b <==> a * a < b * b
  {
    assert b * b - a * a == (b - a) * (b + a);
    if a < b {
      Product(b - a, b + a);
    } else if a > b {
      Product(a - b, b + a);
      assert (a - b) * (b + a) == -((b - a) * (b + a));
    }
  }

  lemma Product(x: real, y: real)
    requires x > 0.0 && y > 0.0
    ensures x * y > 0.0
  {}

  predicate WellPlaced(ue: Ue, gnbs: seq<Position>, minDistance: real) {
    forall k | 0 <= k < |gnbs| :: !TooClose(ue.position, gnbs[k], minDistance)
  }

  /** All well placed terminals, in order. */
  function AllWellPlaced(ues: seq<Ue>, gnbs: seq<Position>, minDistance: real): seq<Ue> {
    if ues == [] then [] else
      var last := ues[|ues| - 1];
      AllWellPlaced(ues[..|ues| - 1], gnbs, minDistance) + if WellPlaced(last, gnbs, minDistance) then [last] else []
  }

  ghost predicate Increasing(at: seq<nat>, bound: nat) {
    && (forall k | 0 <= k < |at| :: at[k] < bound)
    && (forall j, k | 0 <= j < k < |at| :: at[j] < at[k])
  }

  /** The positions of the well placed terminals. */
  function Positions(ues: seq<Ue>, gnbs: seq<Position>, minDistance: real): seq<nat> {
    if ues == [] then [] else
      var last := |ues| - 1;
      Positions(ues[..last], gnbs, minDistance) + if WellPlaced(ues[last], gnbs, minDistance) then [last] else []
  }

  /** They increase, they are the positions of the well placed terminals and of no other ... */
  lemma {:induction false} PositionsAre(ues: seq<Ue>, gnbs: seq<Position>, minDistance: real)
    ensures Increasing(Positions(ues, gnbs, minDistance), |ues|)
    ensures forall i: nat | i < |ues| ::
              i in Positions(ues, gnbs, minDistance) <==> WellPlaced(ues[i], gnbs, minDistance)
  {
    hide WellPlaced;
    if ues != [] {
      var last := |ues| - 1;
      PositionsAre(ues[..last], gnbs, minDistance);
      assert forall i: nat | i < last :: ues[..last][i] == ues[i];
    }
  }

  /** ... and the list has the terminals at these positions, in this order. */
  lemma {:induction false} AllWellPlacedAre(ues: seq<Ue>, gnbs: seq<Position>, minDistance: real)
    ensures var all, at := AllWellPlaced(ues, gnbs, minDistance), Positions(ues, gnbs, minDistance);
            |all| == |at| && forall k | 0 <= k < |at| :: at[k] < |ues| && all[k] == ues[at[k]]
  {
    hide WellPlaced;
    if ues != [] {
      var last := |ues| - 1;
      AllWellPlacedAre(ues[..last], gnbs, minDistance);
    }
  }

  function FirstOf<T>(s: seq<T>, n: nat): seq<T> { if |s| <= n then s else s[..n] }

  lemma {:induction false} WellPlacedPrefix(ues: seq<Ue>, k: nat, gnbs: seq<Position>, minDistance: real)
    requires k <= |ues|
    ensures AllWellPlaced(ues[..k], gnbs, minDistance) <= AllWellPlaced(ues, gnbs, minDistance)
  {
    if k == |ues| {
      assert ues[..k] == ues;
    } else {
      WellPlacedPrefix(ues[..|ues| - 1], k, gnbs, minDistance);
      assert ues[..|ues| - 1][..k] == ues[..k];
    }
  }

  /** The two loops with their early exits.  For n >= 1 these are the first n well placed terminals;
      the count is only checked after a terminal has been looked at, so n == 0 still looks at one. */
  method SelectWellPlacedUes(ueNodes: seq<Ue>, gnbNodes: seq<Position>, minDistance: real, n: nat)
    returns (filtered: seq<Ue>)
    ensures n >= 1 ==> filtered == FirstOf(AllWellPlaced(ueNodes, gnbNodes, minDistance), n)
    ensures n >= 1 ==> var all := AllWellPlaced(ueNodes, gnbNodes, minDistance);
                       filtered == if |all| < n then all else all[..n]
    ensures n == 0 ==> filtered == AllWellPlaced(FirstOf(ueNodes, 1), gnbNodes, minDistance)
  {
    hide TooClose;
    filtered := [];
    var i := 0;
    while i < |ueNodes|
      invariant i <= |ueNodes| && filtered == AllWellPlaced(ueNodes[..i], gnbNodes, minDistance)
      invariant |filtered| < n || i == 0
    {
      var ue := ueNodes[i];
      var correctDistance := true;
      var g := 0;
      while g < |gnbNodes|
        invariant g <= |gnbNodes| && correctDistance
        invariant WellPlaced(ue, gnbNodes[..g], minDistance)
      {
        if TooClose(ue.position, gnbNodes[g], minDistance) {
          correctDistance := false;
          break;
        }
        g := g + 1;
      }
      assert correctDistance <==> WellPlaced(ue, gnbNodes, minDistance);
      assert ueNodes[..i + 1][..i] == ueNodes[..i];
      if correctDistance {
        filtered := filtered + [ue];
      }
      i := i + 1;
      if |filtered| >= n {
        break;
      }
    }
    WellPlacedPrefix(ueNodes, i, gnbNodes, minDistance);
    if i == |ueNodes| {
      assert ueNodes[..i] == ueNodes;
    }
  }

  /** Asking for nobody gives nobody exactly when there is no first terminal or it is badly placed. */
  lemma {:induction false} AskingForNobody(ueNodes: seq<Ue>, gnbNodes: seq<Position>, minDistance: real)
    ensures AllWellPlaced(FirstOf(ueNodes, 1), gnbNodes, minDistance) ==
            FirstOf(AllWellPlaced(ueNodes, gnbNodes, minDistance), 0)
            <==> ueNodes == [] || !WellPlaced(ueNodes[0], gnbNodes, minDistance)
  {
    hide WellPlaced;
    var first := FirstOf(ueNodes, 1);
    assert FirstOf(AllWellPlaced(ueNodes, gnbNodes, minDistance), 0) == [];
    if ueNodes != [] {
      assert first == [ueNodes[0]] && first[..0] == [];
    }
  }
}
