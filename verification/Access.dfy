/**
 The access side of master/topology.cc: which node sits where in the containers of the access
 points.  Container i starts with access point i, then comes its monitor, if it has one, then
 the terminals assigned to it, in input order.
 */
module Access {
  import opened Fabric

  datatype Element = ApNode(i: nat) | Monitor(m: nat) | Terminal(t: nat)

  /** The fields of TermData the topology reads. */
  datatype TermData = TermData(useAppli: int, apNo: int)

  const MONITORS := 3

  function Min(a: nat, b: nat): nat { if a < b then a else b }

  /** Where a terminal goes: access points are numbered from 1 in the input, and every number that
      names none of them goes to access point 0. */
  function ApIndex(apNo: int, n: nat): nat {
    if 1 <= apNo <= n then apNo - 1 else 0
  }

  /** The terminals among the first k that go to access point i, in input order. */
  function TerminalsAt(data: seq<TermData>, k: nat, n: nat, i: nat): seq<Element>
    requires k <= |data|
  {
    if k == 0 then [] else
      TerminalsAt(data, k - 1, n, i) + if ApIndex(data[k - 1].apNo, n) == i then [Terminal(k - 1)] else []
  }

  function Head(n: nat, i: nat): seq<Element> {
    [ApNode(i)] + if i < Min(MONITORS, n) then [Monitor(i)] else []
  }

  function Container(data: seq<TermData>, k: nat, n: nat, i: nat): seq<Element>
    requires k <= |data|
  {
    Head(n, i) + TerminalsAt(data, k, n, i)
  }

  function Containers(data: seq<TermData>, k: nat, n: nat): seq<seq<Element>>
    requires k <= |data|
  {
    seq(n, i requires 0 <= i < n => Container(data, k, n, i))
  }

  /** From slot first on there are terminals only, in input order. */
  predicate TerminalsInOrder(c: seq<Element>, first: nat) {
    && (forall j | first <= j < |c| :: c[j].Terminal?)
    && (forall j, k | first <= j < k < |c| :: c[j].t < c[k].t)
  }

  class NetSim {
    const apNum: nat
    const termNum: nat
    const termData: seq<TermData>
    var wifiNodes: seq<seq<Element>>
    var wifiAPs: seq<Element>
    var monitorTerminals: seq<Element>
    var terms: seq<Element>
    var nrUes: seq<Element>

    constructor (apNum: nat, termNum: nat, termData: seq<TermData>)
      requires 1 <= apNum && termNum <= |termData|
      ensures this.apNum == apNum && this.termNum == termNum && this.termData == termData
    {
      this.apNum, this.termNum, this.termData := apNum, termNum, termData;
      wifiNodes, wifiAPs, monitorTerminals, terms, nrUes := [], [], [], [], [];
    }

    method CreateNetworkTopology()
      requires 1 <= apNum && termNum <= |termData|
      modifies this
      ensures wifiNodes == Containers(termData, termNum, apNum) && |wifiNodes| == apNum
      ensures |monitorTerminals| == 3
      ensures forall i | 0 <= i < apNum :: |wifiNodes[i]| >= 1 && wifiNodes[i][0] == ApNode(i)
      ensures forall i | 0 <= i < apNum && i < 3 :: |wifiNodes[i]| >= 2 && wifiNodes[i][1] == Monitor(i)
      ensures forall i, t: nat | 0 <= i < apNum && t < termNum ::
                Terminal(t) in wifiNodes[i] <==>
                if i == 0 then !(2 <= termData[t].apNo <= apNum) else termData[t].apNo == i + 1
      ensures forall i | 0 <= i < apNum :: TerminalsInOrder(wifiNodes[i], if i < 3 then 2 else 1)
    {
      wifiNodes := seq(apNum, _ => []);
      terms := [];
      CreateWifiApNodes();
      CreateMonitorNodes();
      CreateTerminalNodes();
    }

    method CreateWifiApNodes()
      requires |wifiNodes| == apNum && forall i | 0 <= i < apNum :: wifiNodes[i] == []
      modifies this`wifiNodes, this`wifiAPs
      ensures |wifiNodes| == apNum && forall i | 0 <= i < apNum :: wifiNodes[i] == [ApNode(i)]
      ensures |wifiAPs| == apNum && forall i | 0 <= i < apNum :: wifiAPs[i] == ApNode(i)
    {
      wifiAPs := [];
      for i := 0 to apNum
        invariant |wifiNodes| == apNum
        invariant forall k | 0 <= k < i :: wifiNodes[k] == [ApNode(k)]
        invariant forall k | i <= k < apNum :: wifiNodes[k] == []
        invariant |wifiAPs| == i && forall k | 0 <= k < i :: wifiAPs[k] == ApNode(k)
      {
        wifiNodes := wifiNodes[i := wifiNodes[i] + [ApNode(i)]];
        wifiAPs := wifiAPs + [ApNode(i)];
      }
    }

    /** There are always three monitors; those without an access point stay unattached. */
    method CreateMonitorNodes()
      requires |wifiNodes| == apNum && forall i | 0 <= i < apNum :: wifiNodes[i] == [ApNode(i)]
      modifies this`wifiNodes, this`monitorTerminals
      ensures |wifiNodes| == apNum && forall i | 0 <= i < apNum :: wifiNodes[i] == Head(apNum, i)
      ensures forall i | 0 <= i < apNum ::
                wifiNodes[i] == if i < 3 then [ApNode(i), Monitor(i)] else [ApNode(i)]
      ensures monitorTerminals == [Monitor(0), Monitor(1), Monitor(2)]
    {
      monitorTerminals := [];
      var monitorCount := Min(MONITORS, apNum);
      for m := 0 to monitorCount
        invariant |wifiNodes| == apNum
        invariant forall k | 0 <= k < m :: wifiNodes[k] == Head(apNum, k)
        invariant forall k | m <= k < apNum :: wifiNodes[k] == [ApNode(k)]
        invariant |monitorTerminals| == m && forall k | 0 <= k < m :: monitorTerminals[k] == Monitor(k)
      {
        monitorTerminals := monitorTerminals + [Monitor(m)];
        wifiNodes := wifiNodes[m := wifiNodes[m] + [Monitor(m)]];
      }
      for m := monitorCount to MONITORS
        invariant |wifiNodes| == apNum && forall i | 0 <= i < apNum :: wifiNodes[i] == Head(apNum, i)
        invariant |monitorTerminals| == m && forall k | 0 <= k < m :: monitorTerminals[k] == Monitor(k)
      {
        monitorTerminals := monitorTerminals + [Monitor(m)];
      }
    }

    method CreateTerminalNodes()
      requires 1 <= apNum && termNum <= |termData|
      requires |wifiNodes| == apNum && forall i | 0 <= i < apNum :: wifiNodes[i] == Head(apNum, i)
      requires terms == []
      modifies this`wifiNodes, this`terms
      ensures wifiNodes == Containers(termData, termNum, apNum) && |wifiNodes| == apNum
      ensures forall i, t: nat | 0 <= i < apNum && t < termNum ::
                Terminal(t) in wifiNodes[i] <==>
                if i == 0 then !(2 <= termData[t].apNo <= apNum) else termData[t].apNo == i + 1
      ensures forall i | 0 <= i < apNum :: TerminalsInOrder(wifiNodes[i], if i < 3 then 2 else 1)
      ensures |terms| == termNum && forall t | 0 <= t < termNum :: terms[t] == Terminal(t)
    {
      hide Container, TerminalsInOrder;
      HeadsOnly(termData, apNum);
      for t := 0 to termNum
        invariant wifiNodes == Containers(termData, t, apNum)
        invariant |terms| == t && forall k | 0 <= k < t :: terms[k] == Terminal(k)
      {
        var apIndex := if termData[t].apNo - 1 > 0 then termData[t].apNo - 1 else 0;
        if apIndex >= |wifiNodes| {
          apIndex := 0;
        }
        wifiNodes := wifiNodes[apIndex := wifiNodes[apIndex] + [Terminal(t)]];
        terms := terms + [Terminal(t)];
        ContainersGrow(termData, t, apNum);
      }
      NumbersDecide(termData, termNum, apNum, wifiNodes);
      InputOrder(termData, termNum, apNum, wifiNodes);
    }

    /** The user equipments of the NR cell: everything in container 0 but the access point. */
    method ConfigureNrForAp0()
      requires 1 <= apNum && |wifiNodes| == apNum && |wifiNodes[0]| >= 1
      modifies this`nrUes
      ensures nrUes == wifiNodes[0][1..]
    {
      nrUes := [];
      for i := 1 to |wifiNodes[0]|
        invariant nrUes == wifiNodes[0][1..i]
      {
        nrUes := nrUes + [wifiNodes[0][i]];
      }
    }
  }

  lemma HeadsOnly(data: seq<TermData>, n: nat)
    ensures forall i | 0 <= i < n :: Container(data, 0, n, i) == Head(n, i)
  {}

  lemma ContainersGrow(data: seq<TermData>, t: nat, n: nat)
    requires t < |data| && 1 <= n
    ensures var i := ApIndex(data[t].apNo, n);
            i < n && Containers(data, t + 1, n) ==
                     Containers(data, t, n)[i := Container(data, t, n, i) + [Terminal(t)]]
  {
    var i := ApIndex(data[t].apNo, n);
    forall k | 0 <= k < n
      ensures Container(data, t + 1, n, k) ==
              Container(data, t, n, k) + if k == i then [Terminal(t)] else []
    {
      var more := if k == i then [Terminal(t)] else [];
      assert Head(n, k) + (TerminalsAt(data, t, n, k) + more) == (Head(n, k) + TerminalsAt(data, t, n, k)) + more;
      assert TerminalsAt(data, t, n, k) + [] == TerminalsAt(data, t, n, k);
    }
    var next := Containers(data, t, n)[i := Container(data, t, n, i) + [Terminal(t)]];
    assert forall k | 0 <= k < n :: Containers(data, t + 1, n)[k] == next[k];
  }

  // ---------- seats ----------

  /** The place of a terminal: the access point its number names, behind the access point, its
      monitor and the earlier terminals there. */
  function TerminalSeat(data: seq<TermData>, n: nat, t: nat): (nat, nat)
    requires t < |data|
  {
    var i := ApIndex(data[t].apNo, n);
    (i, |Container(data, t, n, i)|)
  }

  lemma {:induction false} TerminalsAtPrefix(data: seq<TermData>, t: nat, k: nat, n: nat, i: nat)
    requires t <= k <= |data|
    ensures TerminalsAt(data, t, n, i) <= TerminalsAt(data, k, n, i)
  {
    if t < k {
      TerminalsAtPrefix(data, t, k - 1, n, i);
    }
  }

  /** Every terminal sits at its seat. */
  lemma TerminalIsSeated(data: seq<TermData>, k: nat, n: nat, t: nat)
    requires t < k <= |data| && 1 <= n
    ensures var (i, j) := TerminalSeat(data, n, t);
            i < n && 1 <= j < |Containers(data, k, n)[i]| && Containers(data, k, n)[i][j] == Terminal(t)
  {
    var (i, j) := TerminalSeat(data, n, t);
    TerminalsAtPrefix(data, t + 1, k, n, i);
    assert TerminalsAt(data, t + 1, n, i)[|TerminalsAt(data, t, n, i)|] == Terminal(t);
  }

  /** Every element of a container is where it belongs. */
  lemma {:induction false} TerminalsAtAre(data: seq<TermData>, k: nat, n: nat, i: nat, j: nat)
    requires k <= |data| && j < |TerminalsAt(data, k, n, i)|
    ensures var e := TerminalsAt(data, k, n, i)[j];
            e.Terminal? && e.t < k && ApIndex(data[e.t].apNo, n) == i && j == |TerminalsAt(data, e.t, n, i)|
  {
    if j < |TerminalsAt(data, k - 1, n, i)| {
      TerminalsAtAre(data, k - 1, n, i, j);
    }
  }

  /** Whatever sits at slot 1 or later is a terminal at its own seat, or the monitor of this access
      point at slot 1; so no element sits at two places. */
  lemma SeatsAreUnique(data: seq<TermData>, k: nat, n: nat, i: nat, j: nat)
    requires k <= |data| && i < n && 1 <= j < |Containers(data, k, n)[i]|
    ensures match Containers(data, k, n)[i][j]
            case ApNode(_) => false
            case Monitor(m) => m == i && j == 1 && i < Min(MONITORS, n)
            case Terminal(t) => t < k && TerminalSeat(data, n, t) == (i, j)
  {
    var h := |Head(n, i)|;
    if j >= h {
      TerminalsAtAre(data, k, n, i, j - h);
    }
  }

  /** A terminal is in the container its number names and in no other: numbers 2 to n name access points
      1 to n - 1, whose terminals are Wi-Fi stations, and access point 0 gets everybody else as user
      equipment of the NR cell.  The same holds for the first three monitors. */
  lemma AccessPartition(data: seq<TermData>, k: nat, n: nat, i: nat)
    requires k <= |data| && i < n
    ensures forall t: nat | t < k ::
              Terminal(t) in Containers(data, k, n)[i][1..] <==>
              if i == 0 then !(2 <= data[t].apNo <= n) else data[t].apNo == i + 1
    ensures forall m: nat :: Monitor(m) in Containers(data, k, n)[i][1..] <==> m == i && m < 3
    ensures forall m: nat :: ApNode(m) in Containers(data, k, n)[i] <==> m == i
  {
    var c := Containers(data, k, n)[i];
    assert c[0] == ApNode(i);
    assert i < 3 ==> c[1..][0] == Monitor(i);
    forall j | 0 <= j < |c| - 1
      ensures match c[1..][j]
              case ApNode(_) => false
              case Monitor(m) => m == i && i < Min(MONITORS, n)
              case Terminal(t) => t < k && ApIndex(data[t].apNo, n) == i
    {
      SeatsAreUnique(data, k, n, i, j + 1);
    }
    forall t: nat | t < k && ApIndex(data[t].apNo, n) == i
      ensures Terminal(t) in c[1..]
    {
      TerminalIsSeated(data, k, n, t);
      var j := TerminalSeat(data, n, t).1;
      assert c[1..][j - 1] == Terminal(t);
    }
  }

  /** The same for all containers at once. */
  lemma NumbersDecide(data: seq<TermData>, k: nat, n: nat, nodes: seq<seq<Element>>)
    requires k <= |data| && nodes == Containers(data, k, n)
    ensures forall i, t: nat | 0 <= i < n && t < k ::
              Terminal(t) in nodes[i] <==>
              if i == 0 then !(2 <= data[t].apNo <= n) else data[t].apNo == i + 1
  {
    forall i, t: nat | 0 <= i < n && t < k
      ensures Terminal(t) in nodes[i] <==>
              if i == 0 then !(2 <= data[t].apNo <= n) else data[t].apNo == i + 1
    {
      var c := nodes[i];
      assert c == [ApNode(i)] + c[1..];
      AccessPartition(data, k, n, i);
    }
  }

  /** Behind the access point and its monitor come the terminals, and they keep their input order. */
  lemma InputOrder(data: seq<TermData>, k: nat, n: nat, nodes: seq<seq<Element>>)
    requires k <= |data| && nodes == Containers(data, k, n)
    ensures forall i | 0 <= i < n :: TerminalsInOrder(nodes[i], if i < 3 then 2 else 1)
  {
    forall i, j | 0 <= i < n && (if i < 3 then 2 else 1) <= j < |nodes[i]|
      ensures nodes[i][j].Terminal?
    {
      TerminalsAtAre(data, k, n, i, j - |Head(n, i)|);
    }
    forall i, j, m | 0 <= i < n && (if i < 3 then 2 else 1) <= j < m < |nodes[i]|
      ensures nodes[i][j].t < nodes[i][m].t
    {
      var h := |Head(n, i)|;
      TerminalsAtAre(data, k, n, i, j - h);
      TerminalsAtAre(data, k, n, i, m - h);
      var c := nodes[i];
      if c[m].t <= c[j].t {
        TerminalsAtPrefix(data, c[m].t, c[j].t, n, i);
        assert false;
      }
    }
  }

  function SumOfSizes(cs: seq<seq<Element>>): nat {
    if cs == [] then 0 else SumOfSizes(cs[..|cs| - 1]) + |cs[|cs| - 1]|
  }

  lemma {:induction false} SumAfterUpdate(cs: seq<seq<Element>>, i: nat, c: seq<Element>)
    requires i < |cs|
    ensures SumOfSizes(cs[i := c]) == SumOfSizes(cs) - |cs[i]| + |c|
  {
    var front := cs[..|cs| - 1];
    if i == |cs| - 1 {
      assert cs[i := c][..|cs| - 1] == front;
    } else {
      assert cs[i := c][..|cs| - 1] == front[i := c];
      SumAfterUpdate(front, i, c);
    }
  }

  lemma {:induction false} SumOfHeads(data: seq<TermData>, n: nat, m: nat)
    requires m <= n
    ensures SumOfSizes(Containers(data, 0, n)[..m]) == m + Min(MONITORS, m)
  {
    if m > 0 {
      SumOfHeads(data, n, m - 1);
      assert Containers(data, 0, n)[..m][..m - 1] == Containers(data, 0, n)[..m - 1];
    }
  }

  /** Nothing is lost or doubled: the containers hold the access points, the attached monitors and
      the terminals. */
  lemma {:induction false} SizesSum(data: seq<TermData>, k: nat, n: nat)
    requires k <= |data| && 1 <= n
    ensures SumOfSizes(Containers(data, k, n)) == n + (if n < 3 then n else 3) + k
  {
    hide Container, ApIndex, SumOfSizes;
    if k == 0 {
      SumOfHeads(data, n, n);
      assert Containers(data, 0, n)[..n] == Containers(data, 0, n);
    } else {
      SizesSum(data, k - 1, n);
      ContainersGrow(data, k - 1, n);
      var i := ApIndex(data[k - 1].apNo, n);
      SumAfterUpdate(Containers(data, k - 1, n), i, Container(data, k - 1, n, i) + [Terminal(k - 1)]);
    }
  }

  // ---------- the plan of the fabric ----------

  function PlanOf(cs: seq<seq<Element>>): Plan {
    Plan(seq(|cs|, i requires 0 <= i < |cs| => |cs[i]|))
  }

  /** The node of the fabric that stands for place j of container i. */
  function NodeAt(i: nat, j: nat): Node {
    if j == 0 then Ap(i) else Station(i, j)
  }

  function TerminalNode(data: seq<TermData>, n: nat, t: nat): Node
    requires t < |data|
  {
    var (i, j) := TerminalSeat(data, n, t);
    NodeAt(i, j)
  }

  /** Container 0 always has a user equipment, its monitor; so the plan is valid whenever the
      containers fit their subnets and there are at most 255 access points. */
  lemma PlanIsValid(data: seq<TermData>, k: nat, n: nat)
    requires k <= |data| && 1 <= n <= 255
    requires |Container(data, k, n, 0)| <= 0xFF_FFFE
    requires forall i | 1 <= i < n :: |Container(data, k, n, i)| <= 0xFE
    ensures PlanOf(Containers(data, k, n)).Valid()
  {
    assert |Container(data, k, n, 0)| >= 2;
  }
}
