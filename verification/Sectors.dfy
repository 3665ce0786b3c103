/**
 The three-sector layouts of contrib/nr/examples/cttc-nr-traffic-ngmn-mixed.cc and
 cttc-fh-compression.cc: base stations and terminals are dealt to sectors by index modulo 3,
 attached by a closed form over those containers, and given the packet rate of a cell through yet
 another closed form.
 */
module Sectors {
  const FFR: nat := 3

  /** Elements r, r + 3, r + 6, ... of a container. */
  function Sector<T>(nodes: seq<T>, r: nat): seq<T>
    requires r < FFR
  {
    seq((|nodes| + 2 - r) / 3, k requires 0 <= k < (|nodes| + 2 - r) / 3 => nodes[3 * k + r])
  }

  lemma SectorGrows<T>(nodes: seq<T>, j: nat, r: nat)
    requires j < |nodes| && r < FFR
    ensures Sector(nodes[..j + 1], r) == Sector(nodes[..j], r) + if j % FFR == r then [nodes[j]] else []
  {}

  /** The loop that deals a container to its sectors. */
  method SplitIntoSectors<T>(nodes: seq<T>) returns (s1: seq<T>, s2: seq<T>, s3: seq<T>)
    ensures s1 == Sector(nodes, 0) && s2 == Sector(nodes, 1) && s3 == Sector(nodes, 2)
    ensures |s1| == (|nodes| + 2) / 3 && forall k | 0 <= k < |s1| :: s1[k] == nodes[3 * k]
    ensures |s2| == (|nodes| + 1) / 3 && forall k | 0 <= k < |s2| :: s2[k] == nodes[3 * k + 1]
    ensures |s3| == |nodes| / 3 && forall k | 0 <= k < |s3| :: s3[k] == nodes[3 * k + 2]
  {
    s1, s2, s3 := [], [], [];
    for j := 0 to |nodes|
      invariant s1 == Sector(nodes[..j], 0) && s2 == Sector(nodes[..j], 1) && s3 == Sector(nodes[..j], 2)
    {
      SectorGrows(nodes, j, 0);
      SectorGrows(nodes, j, 1);
      SectorGrows(nodes, j, 2);
      match j % FFR {
        case 0 => s1 := s1 + [nodes[j]];
        case 1 => s2 := s2 + [nodes[j]];
        case _ => s3 := s3 + [nodes[j]];
      }
    }
    assert nodes[..|nodes|] == nodes;
  }

  lemma EmptySectors<T>()
    ensures Sector<T>([], 0) == Sector<T>([], 1) == Sector<T>([], 2) == []
  {}

  /** No element is lost or dealt twice. */
  lemma {:induction false} SectorsPartition<T>(nodes: seq<T>)
    ensures multiset(Sector(nodes, 0)) + multiset(Sector(nodes, 1)) + multiset(Sector(nodes, 2)) == multiset(nodes)
  {
    hide Sector;
    if nodes == [] {
      EmptySectors<T>();
    } else {
      var j := |nodes| - 1;
      SectorsPartition(nodes[..j]);
      SectorStep(nodes, 0);
      SectorStep(nodes, 1);
      SectorStep(nodes, 2);
      assert nodes == nodes[..j] + [nodes[j]];
      assert j % FFR == 0 || j % FFR == 1 || j % FFR == 2;
    }
  }

  lemma SectorStep<T>(nodes: seq<T>, r: nat)
    requires nodes != [] && r < FFR
    ensures var j := |nodes| - 1;
            multiset(Sector(nodes, r)) ==
            multiset(Sector(nodes[..j], r)) + if j % FFR == r then multiset{nodes[j]} else multiset{}
  {
    hide Sector;
    var j := |nodes| - 1;
    SectorGrows(nodes, j, r);
    assert nodes[..j + 1] == nodes;
    if j % FFR != r {
      assert Sector(nodes[..j], r) + [] == Sector(nodes[..j], r);
    }
  }

  // ---------- attachment ----------

  /** The base station the attach loop picks: of the sector of the terminal, the one of its site. */
  function ServingCell(u: nat, sites: nat): (cell: nat)
    requires sites >= 1
    ensures cell < 3 * sites && cell % FFR == u % FFR
  {
    Remainder(u / FFR, sites);
    3 * (u / FFR % sites) + u % FFR
  }

  lemma Remainder(i: nat, sites: nat)
    requires sites >= 1
    ensures 0 <= i % sites <= sites - 1
  {}

  /** Attachment is round robin over all cells, although it goes through sectors and sites. */
  lemma ServingCellIsRoundRobin(u: nat, sites: nat)
    requires sites >= 1
    ensures ServingCell(u, sites) == u % (3 * sites)
  {
    var i, s := u / FFR, u % FFR;
    var q, k := i / sites, i % sites;
    assert i == q * sites + k;
    assert u == q * (3 * sites) + (3 * k + s);
    QuotientIs(u, 3 * sites, q, 3 * k + s);
  }

  lemma QuotientIs(x: nat, m: nat, q: nat, r: nat)
    requires m >= 1 && x == q * m + r && r < m
    ensures x % m == r && x / m == q
  {
    var q1, r1 := x / m, x % m;
    assert x == q1 * m + r1;
    Rounds(q1, q, m);
    Rounds(q, q1, m);
  }

  lemma Rounds(a: nat, b: nat, m: nat)
    ensures a < b ==> a * m + m <= b * m
  {
    if a < b {
      RoundsAfter(a, b - a - 1, m);
    }
  }

  lemma RoundsAfter(a: nat, more: nat, m: nat)
    ensures (a + 1 + more) * m == a * m + m + more * m
    ensures more * m >= 0
  {}

  /** The two splits and the attach loop; terminal u ends up at base station u modulo the number of
      cells, and every terminal is attached exactly once. */
  method AttachAll<G, U>(baseStations: seq<G>, userTerminals: seq<U>, sites: nat) returns (attached: seq<(U, G)>)
    requires sites >= 1 && |baseStations| == 3 * sites
    ensures |attached| == |userTerminals|
    ensures forall u | 0 <= u < |userTerminals| :: attached[u] == (userTerminals[u], baseStations[u % (3 * sites)])
  {
    var gnb1, gnb2, gnb3 := SplitIntoSectors(baseStations);
    var ue1, ue2, ue3 := SplitIntoSectors(userTerminals);
    attached := [];
    for u := 0 to |userTerminals|
      invariant |attached| == u
      invariant forall v | 0 <= v < u :: attached[v] == (userTerminals[v], baseStations[v % (3 * sites)])
    {
      var sector, i := u % FFR, u / FFR;
      ServingCellIsRoundRobin(u, sites);
      Remainder(i, sites);
      if sector == 0 {
        attached := attached + [(ue1[i], gnb1[i % sites])];
      } else if sector == 1 {
        attached := attached + [(ue2[i], gnb2[i % sites])];
      } else {
        attached := attached + [(ue3[i], gnb3[i % sites])];
      }
    }
  }

  /** The terminals a cell serves. */
  function Served(ueNum: nat, sites: nat, cell: nat): set<nat>
    requires sites >= 1
  {
    set u | 0 <= u < ueNum && ServingCell(u, sites) == cell
  }

  /** How many those are, for any number of terminals. */
  lemma {:induction false} LoadOfCell(ueNum: nat, sites: nat, cell: nat)
    requires sites >= 1 && cell < 3 * sites
    ensures |Served(ueNum, sites, cell)| == (ueNum + (3 * sites - 1 - cell)) / (3 * sites)
  {
    hide Served, ServingCell;
    var cells := 3 * sites;
    if ueNum == 0 {
      QuotientIs(cells - 1 - cell, cells, 0, cells - 1 - cell);
      NobodyServed(sites, cell);
    } else {
      var u := ueNum - 1;
      LoadOfCell(u, sites, cell);
      ServedGrows(u, sites, cell);
      LoadSteps(u, cell, cells);
    }
  }

  lemma NobodyServed(sites: nat, cell: nat)
    requires sites >= 1
    ensures Served(0, sites, cell) == {}
  {}

  lemma ServedGrows(u: nat, sites: nat, cell: nat)
    requires sites >= 1
    ensures |Served(u + 1, sites, cell)| == |Served(u, sites, cell)| + if u % (3 * sites) == cell then 1 else 0
  {
    hide ServingCell;
    ServingCellIsRoundRobin(u, sites);
    if u % (3 * sites) == cell {
      assert Served(u + 1, sites, cell) == Served(u, sites, cell) + {u};
    } else {
      assert Served(u + 1, sites, cell) == Served(u, sites, cell);
    }
  }

  /** Ceiling division by the number of cells steps up when the round robin hits the cell. */
  lemma LoadSteps(u: nat, cell: nat, cells: nat)
    requires cells >= 1 && cell < cells
    ensures (u + 1 + (cells - 1 - cell)) / cells ==
            (u + (cells - 1 - cell)) / cells + if u % cells == cell then 1 else 0
  {
    var q, r := u / cells, u % cells;
    assert u == q * cells + r;
    LoadStep(q, r, cell, cells);
  }

  lemma LoadStep(q: nat, r: nat, cell: nat, cells: nat)
    requires r < cells && cell < cells
    ensures var x := q * cells + r + (cells - 1 - cell);
            (x + 1) / cells == x / cells + if r == cell then 1 else 0
  {
    if r < cell {
      StaysInRound(q, cells - 1 + r - cell, cells);
    } else if r == cell {
      EntersRound(q, cells);
    } else {
      assert q * cells + r + (cells - 1 - cell) == (q + 1) * cells + (r - cell - 1);
      StaysInRound(q + 1, r - cell - 1, cells);
    }
  }

  lemma StaysInRound(q: nat, r: nat, cells: nat)
    requires r + 1 < cells
    ensures (q * cells + r + 1) / cells == (q * cells + r) / cells
  {
    QuotientIs(q * cells + r, cells, q, r);
    QuotientIs(q * cells + r + 1, cells, q, r + 1);
  }

  lemma EntersRound(q: nat, cells: nat)
    requires cells >= 1
    ensures (q * cells + (cells - 1) + 1) / cells == (q * cells + (cells - 1)) / cells + 1
  {
    QuotientIs(q * cells + (cells - 1), cells, q, cells - 1);
    QuotientIs(q * cells + (cells - 1) + 1, cells, q + 1, 0);
  }

  /** With uesPerGnb terminals per cell every cell serves exactly that many. */
  lemma EveryCellServesItsShare(uesPerGnb: nat, sites: nat, cell: nat)
    requires sites >= 1 && cell < 3 * sites
    ensures |Served(uesPerGnb * (3 * sites), sites, cell)| == uesPerGnb
  {
    LoadOfCell(uesPerGnb * (3 * sites), sites, cell);
    QuotientIs(uesPerGnb * (3 * sites) + (3 * sites - 1 - cell), 3 * sites, uesPerGnb, 3 * sites - 1 - cell);
  }

  // ---------- packet rates ----------

  /** One rate for all cells, or one that grows with the cell number. */
  method LambdaPerCell(cells: nat, uniformLambda: bool, lambda: nat) returns (lambdaPerCell: seq<nat>)
    ensures |lambdaPerCell| == cells
    ensures uniformLambda ==> forall bs | 0 <= bs < cells :: lambdaPerCell[bs] == lambda
    ensures !uniformLambda ==> forall bs | 0 <= bs < cells :: lambdaPerCell[bs] == 1000 + 2000 * bs
  {
    lambdaPerCell := seq(cells, _ => 0);
    if uniformLambda {
      for bs := 0 to cells
        invariant |lambdaPerCell| == cells && forall k | 0 <= k < bs :: lambdaPerCell[k] == lambda
      {
        lambdaPerCell := lambdaPerCell[bs := lambda];
      }
    } else {
      for bs := 0 to cells
        invariant |lambdaPerCell| == cells && forall k | 0 <= k < bs :: lambdaPerCell[k] == 1000 + 2000 * k
      {
        lambdaPerCell := lambdaPerCell[bs := 1000 + bs * 2000];
      }
    }
  }

  /** Every terminal with the rate of the cell that serves it. */
  function RateOfServingCell<U>(userTerminals: seq<U>, lambdaPerCell: seq<nat>): seq<(U, nat)>
    requires |lambdaPerCell| >= 1
  {
    seq(|userTerminals|, u requires 0 <= u < |userTerminals| => (userTerminals[u], lambdaPerCell[u % |lambdaPerCell|]))
  }

  lemma RatesOfSector<U>(userTerminals: seq<U>, lambdaPerCell: seq<nat>, sites: nat, r: nat, i: nat)
    requires sites >= 1 && |lambdaPerCell| == 3 * sites && r < FFR && i < |Sector(userTerminals, r)|
    ensures i % sites * 3 + r < |lambdaPerCell|
    ensures Sector(RateOfServingCell(userTerminals, lambdaPerCell), r)[i] ==
              (Sector(userTerminals, r)[i], lambdaPerCell[i % sites * 3 + r])
  {
    ServingCellIsRoundRobin(3 * i + r, sites);
    Remainder(i, sites);
    QuotientIs(3 * i + r, 3, i, r);
  }

  /** The loop over one sector's terminals. */
  method InstallSector<U>(userTerminals: seq<U>, lambdaPerCell: seq<nat>, sites: nat, r: nat, ue: seq<U>)
    returns (clients: seq<(U, nat)>)
    requires sites >= 1 && |lambdaPerCell| == 3 * sites && r < FFR && ue == Sector(userTerminals, r)
    ensures clients == Sector(RateOfServingCell(userTerminals, lambdaPerCell), r)
  {
    clients := [];
    for i := 0 to |ue|
      invariant clients == Sector(RateOfServingCell(userTerminals, lambdaPerCell), r)[..i]
    {
      RatesOfSector(userTerminals, lambdaPerCell, sites, r, i);
      clients := clients + [(ue[i], lambdaPerCell[i % sites * 3 + r])];
    }
  }

  /** The traffic of all three sectors: each terminal gets exactly one client, and it runs at the
      rate of the base station the terminal is attached to. */
  method InstallTraffic<U>(userTerminals: seq<U>, lambdaPerCell: seq<nat>, sites: nat) returns (clients: seq<(U, nat)>)
    requires sites >= 1 && |lambdaPerCell| == 3 * sites
    ensures multiset(clients) == multiset(RateOfServingCell(userTerminals, lambdaPerCell))
    ensures multiset(clients) ==
            multiset(seq(|userTerminals|, u requires 0 <= u < |userTerminals| =>
                           (userTerminals[u], lambdaPerCell[u % (3 * sites)])))
    ensures var rates := RateOfServingCell(userTerminals, lambdaPerCell);
            clients == Sector(rates, 0) + Sector(rates, 1) + Sector(rates, 2)
  {
    assert RateOfServingCell(userTerminals, lambdaPerCell) ==
           seq(|userTerminals|, u requires 0 <= u < |userTerminals| =>
                 (userTerminals[u], lambdaPerCell[u % (3 * sites)]));
    var ue1, ue2, ue3 := SplitIntoSectors(userTerminals);
    var c1 := InstallSector(userTerminals, lambdaPerCell, sites, 0, ue1);
    var c2 := InstallSector(userTerminals, lambdaPerCell, sites, 1, ue2);
    var c3 := InstallSector(userTerminals, lambdaPerCell, sites, 2, ue3);
    clients := c1 + c2 + c3;
    SectorsPartition(RateOfServingCell(userTerminals, lambdaPerCell));
  }
}
