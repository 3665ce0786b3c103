/**
 The per-cell settings in Set5gLenaSimulatorParameters of contrib/nr/examples/cttc-fh-compression.cc:
 the largest modulation and coding scheme of each cell, and the three sector loops that hand it out
 together with the TDD pattern, counting cells across all sectors.
 */
module CellConfig {
  import opened Sectors

  /** Which of the parameters are the same for all cells, and the values to choose from. */
  datatype Options = Options(uniformMcs: bool, uniformPattern: bool, uniformLambda: bool,
                             maxMcsDl1: int, maxMcsDl2: int, maxMcsVector: seq<int>)

  /** What is set at a base station; with two bandwidth parts both patterns are fixed and no largest
      scheme is set. */
  datatype Setting = Tdd(pattern1: bool, maxDlMcs: int) | Fdd

  /** The vector of per-cell values is indexed by cell without a check. */
  predicate VectorSuffices(o: Options, cells: nat) {
    !o.uniformMcs && o.uniformPattern && !o.uniformLambda ==> cells <= |o.maxMcsVector|
  }

  /** The largest scheme of cell i.  No branch covers non-uniform patterns with non-uniform rates. */
  function MaxMcs(o: Options, i: nat): int
    requires VectorSuffices(o, i + 1)
  {
    if o.uniformMcs || (o.uniformPattern && o.uniformLambda) then o.maxMcsDl1
    else if o.uniformLambda then (if i % 2 == 1 then o.maxMcsDl1 else o.maxMcsDl2)
    else if o.uniformPattern then o.maxMcsVector[i]
    else 0
  }

  method MaxMcsPerCell(o: Options, cells: nat) returns (maxMcsPerCell: seq<int>)
    requires VectorSuffices(o, cells)
    ensures |maxMcsPerCell| == cells && forall i | 0 <= i < cells :: maxMcsPerCell[i] == MaxMcs(o, i)
    ensures o.uniformMcs || (o.uniformPattern && o.uniformLambda) ==>
              forall i | 0 <= i < cells :: maxMcsPerCell[i] == o.maxMcsDl1
    ensures !o.uniformMcs && !o.uniformPattern && o.uniformLambda ==>
              forall i | 0 <= i < cells :: maxMcsPerCell[i] == if i % 2 == 1 then o.maxMcsDl1 else o.maxMcsDl2
    ensures !o.uniformMcs && o.uniformPattern && !o.uniformLambda ==>
              forall i | 0 <= i < cells :: maxMcsPerCell[i] == o.maxMcsVector[i]
    ensures !o.uniformMcs && !o.uniformPattern && !o.uniformLambda ==>
              forall i | 0 <= i < cells :: maxMcsPerCell[i] == 0
  {
    maxMcsPerCell := seq(cells, _ => 0);
    if o.uniformMcs {
      for i := 0 to cells
        invariant |maxMcsPerCell| == cells && forall k | 0 <= k < i :: maxMcsPerCell[k] == o.maxMcsDl1
      {
        maxMcsPerCell := maxMcsPerCell[i := o.maxMcsDl1];
      }
    } else {
      if o.uniformPattern && o.uniformLambda {
        for i := 0 to cells
          invariant |maxMcsPerCell| == cells && forall k | 0 <= k < i :: maxMcsPerCell[k] == o.maxMcsDl1
        {
          maxMcsPerCell := maxMcsPerCell[i := o.maxMcsDl1];
        }
      } else if o.uniformLambda && !o.uniformPattern {
        for i := 0 to cells
          invariant |maxMcsPerCell| == cells && forall k | 0 <= k < i :: maxMcsPerCell[k] == MaxMcs(o, k)
        {
          if i % 2 == 1 {
            maxMcsPerCell := maxMcsPerCell[i := o.maxMcsDl1];
          } else {
            maxMcsPerCell := maxMcsPerCell[i := o.maxMcsDl2];
          }
        }
      } else if o.uniformPattern && !o.uniformLambda {
        for i := 0 to cells
          invariant |maxMcsPerCell| == cells && forall k | 0 <= k < i :: maxMcsPerCell[k] == MaxMcs(o, k)
        {
          maxMcsPerCell := maxMcsPerCell[i := o.maxMcsVector[i]];
        }
      }
    }
  }

  /** The setting of the cell that is counted as number id, with bwps bandwidth parts. */
  function SettingOf(o: Options, bwps: nat, id: nat): Setting
    requires VectorSuffices(o, id + 1)
  {
    if bwps == 1 then Tdd(o.uniformPattern || id % 2 == 1, MaxMcs(o, id)) else Fdd
  }

  /** The setting made as number id, in plain terms: which base station it is for, the pattern it gets and
      the largest scheme. */
  ghost predicate IsCell(o: Options, numberBwp: seq<nat>, sites: nat, id: nat, made: (nat, Setting))
    requires |numberBwp| == 3 * sites && VectorSuffices(o, 3 * sites) && id < 3 * sites
  {
    var (b, setting) := made;
    && b < 3 * sites && id == b % 3 * sites + b / 3
    && (numberBwp[b] == 2 ==> setting == Fdd)
    && (numberBwp[b] == 1 ==>
          && setting.Tdd? && (setting.pattern1 <==> o.uniformPattern || id % 2 == 1)
          && (o.uniformMcs || (o.uniformPattern && o.uniformLambda) ==> setting.maxDlMcs == o.maxMcsDl1)
          && (!o.uniformMcs && !o.uniformPattern && o.uniformLambda ==>
                setting.maxDlMcs == if id % 2 == 1 then o.maxMcsDl1 else o.maxMcsDl2)
          && (!o.uniformMcs && o.uniformPattern && !o.uniformLambda ==> setting.maxDlMcs == o.maxMcsVector[id])
          && (!o.uniformMcs && !o.uniformPattern && !o.uniformLambda ==> setting.maxDlMcs == 0))
  }

  class GridConfig {
    const options: Options
    /** The number of bandwidth parts of each base station. */
    const numberBwp: seq<nat>
    var globalCellId: nat
    /** The settings in the order in which they are made: base station and setting. */
    var settings: seq<(nat, Setting)>

    constructor (options: Options, numberBwp: seq<nat>)
      ensures this.options == options && this.numberBwp == numberBwp && globalCellId == 0 && settings == []
    {
      this.options, this.numberBwp := options, numberBwp;
      globalCellId, settings := 0, [];
    }

    /** One of the three sector loops; false stands for the abort on an odd number of parts. */
    method ConfigureSector(sector: seq<nat>, maxMcsPerCell: seq<int>) returns (ok: bool)
      requires |settings| == globalCellId && globalCellId + |sector| <= |maxMcsPerCell|
      requires VectorSuffices(options, |maxMcsPerCell|)
      requires forall i | 0 <= i < |maxMcsPerCell| :: maxMcsPerCell[i] == MaxMcs(options, i)
      requires forall k | 0 <= k < |sector| :: sector[k] < |numberBwp|
      modifies this
      ensures ok <==> forall k | 0 <= k < |sector| :: numberBwp[sector[k]] in {1, 2}
      ensures ok ==> globalCellId == old(globalCellId) + |sector| == |settings|
      ensures ok ==> settings == old(settings) + SectorSettings(options, numberBwp, sector, old(globalCellId))
    {
      var first := globalCellId;
      for numCell := 0 to |sector|
        invariant globalCellId == first + numCell
        invariant settings == old(settings) + SectorSettings(options, numberBwp, sector, first)[..numCell]
        invariant forall k | 0 <= k < numCell :: numberBwp[sector[k]] in {1, 2}
      {
        var gnb := sector[numCell];
        if numberBwp[gnb] == 1 {
          var pattern1 := options.uniformPattern || globalCellId % 2 == 1;
          settings := settings + [(gnb, Tdd(pattern1, maxMcsPerCell[globalCellId]))];
        } else if numberBwp[gnb] == 2 {
          settings := settings + [(gnb, Fdd)];
        } else {
          return false;
        }
        globalCellId := globalCellId + 1;
      }
      ok := true;
    }

    /** The whole configuration of a grid with base stations 0, 1, ..., dealt to three sectors. */
    method ConfigureCells(sites: nat) returns (ok: bool)
      requires |numberBwp| == 3 * sites && VectorSuffices(options, 3 * sites)
      requires globalCellId == 0 && settings == []
      modifies this
      ensures ok <==> forall b | 0 <= b < 3 * sites :: numberBwp[b] in {1, 2}
      ensures ok ==> settings == AllSettings(options, numberBwp, sites) && |settings| == 3 * sites
      ensures ok ==> forall id | 0 <= id < 3 * sites :: IsCell(options, numberBwp, sites, id, settings[id])
    {
      hide Sector, SettingOf, MaxMcs, IsCell, SectorSettings, AllSettings, BaseStations;
      var maxMcsPerCell := MaxMcsPerCell(options, 3 * sites);
      var gnb1, gnb2, gnb3 := SplitIntoSectors(BaseStations(sites));
      SectorMembers(sites);
      ok := ConfigureSector(gnb1, maxMcsPerCell);
      if !ok { return; }
      ok := ConfigureSector(gnb2, maxMcsPerCell);
      if !ok { return; }
      ok := ConfigureSector(gnb3, maxMcsPerCell);
      if !ok { return; }
      EverybodyDealt(numberBwp, sites, gnb1, gnb2, gnb3);
      SectorsJoin(options, numberBwp, sites, gnb1, gnb2, gnb3);
      SettingsInWords(options, numberBwp, sites);
    }
  }

  function BaseStations(sites: nat): seq<nat> {
    seq(3 * sites, b requires 0 <= b < 3 * sites => b)
  }

  predicate IsSector(sector: seq<nat>, r: nat, sites: nat) {
    |sector| == sites && forall k | 0 <= k < sites :: sector[k] == 3 * k + r < 3 * sites
  }

  lemma SectorsJoin(o: Options, numberBwp: seq<nat>, sites: nat, gnb1: seq<nat>, gnb2: seq<nat>, gnb3: seq<nat>)
    requires |numberBwp| == 3 * sites && VectorSuffices(o, 3 * sites)
    requires var b := BaseStations(sites); gnb1 == Sector(b, 0) && gnb2 == Sector(b, 1) && gnb3 == Sector(b, 2)
    requires IsSector(gnb1, 0, sites) && IsSector(gnb2, 1, sites) && IsSector(gnb3, 2, sites)
    ensures AllSettings(o, numberBwp, sites) ==
            [] + SectorSettings(o, numberBwp, gnb1, 0) + SectorSettings(o, numberBwp, gnb2, sites)
            + SectorSettings(o, numberBwp, gnb3, 2 * sites)
  {
    hide SectorSettings, Sector;
    assert [] + SectorSettings(o, numberBwp, gnb1, 0) == SectorSettings(o, numberBwp, gnb1, 0);
  }

  /** What holds for all three sectors holds for all base stations. */
  lemma EverybodyDealt(numberBwp: seq<nat>, sites: nat, gnb1: seq<nat>, gnb2: seq<nat>, gnb3: seq<nat>)
    requires |numberBwp| == 3 * sites
    requires IsSector(gnb1, 0, sites) && IsSector(gnb2, 1, sites) && IsSector(gnb3, 2, sites)
    requires forall k | 0 <= k < |gnb1| :: numberBwp[gnb1[k]] in {1, 2}
    requires forall k | 0 <= k < |gnb2| :: numberBwp[gnb2[k]] in {1, 2}
    requires forall k | 0 <= k < |gnb3| :: numberBwp[gnb3[k]] in {1, 2}
    ensures forall b | 0 <= b < 3 * sites :: numberBwp[b] in {1, 2}
  {
    forall b | 0 <= b < 3 * sites
      ensures numberBwp[b] in {1, 2}
    {
      var gnb := if b % 3 == 0 then gnb1 else if b % 3 == 1 then gnb2 else gnb3;
      assert gnb[b / 3] == b;
    }
  }

  lemma SectorMembers(sites: nat)
    ensures var b := BaseStations(sites);
            IsSector(Sector(b, 0), 0, sites) && IsSector(Sector(b, 1), 1, sites) && IsSector(Sector(b, 2), 2, sites)
  {}

  function SectorSettings(o: Options, numberBwp: seq<nat>, sector: seq<nat>, first: nat): seq<(nat, Setting)>
    requires VectorSuffices(o, first + |sector|) && forall k | 0 <= k < |sector| :: sector[k] < |numberBwp|
  {
    seq(|sector|, k requires 0 <= k < |sector| => (sector[k], SettingOf(o, numberBwp[sector[k]], first + k)))
  }

  /** Cells are counted sector by sector: the cell with number id is at site id % sites. */
  function StationOf(id: nat, sites: nat): nat
    requires sites >= 1
  {
    3 * (id % sites) + id / sites
  }

  function CellNumber(b: nat, sites: nat): nat { b % 3 * sites + b / 3 }

  /** The settings, in order of cell numbers. */
  function AllSettings(o: Options, numberBwp: seq<nat>, sites: nat): seq<(nat, Setting)>
    requires |numberBwp| == 3 * sites && VectorSuffices(o, 3 * sites)
  {
    SectorMembers(sites);
    var b := BaseStations(sites);
    SectorSettings(o, numberBwp, Sector(b, 0), 0) + SectorSettings(o, numberBwp, Sector(b, 1), sites)
    + SectorSettings(o, numberBwp, Sector(b, 2), 2 * sites)
  }

  /** Every base station is set exactly once: the one at position id is StationOf(id), and each
      base station stands at the position that is its cell number and nowhere else. */
  lemma EveryCellOnce(o: Options, numberBwp: seq<nat>, sites: nat, id: nat, b: nat)
    requires |numberBwp| == 3 * sites && VectorSuffices(o, 3 * sites) && id < 3 * sites && b < 3 * sites
    ensures var all := AllSettings(o, numberBwp, sites);
            && |all| == 3 * sites
            && StationOf(id, sites) < 3 * sites
            && all[id] == (StationOf(id, sites), SettingOf(o, numberBwp[StationOf(id, sites)], id))
            && (all[id].0 == b <==> id == b % 3 * sites + b / 3)
  {
    hide SettingOf, StationOf;
    AllSettingsAt(o, numberBwp, sites, id);
    StationAndNumber(sites, id, b);
  }

  /** All settings in plain terms: which base station is cell id, its pattern and its largest scheme. */
  lemma SettingsInWords(o: Options, numberBwp: seq<nat>, sites: nat)
    requires |numberBwp| == 3 * sites && VectorSuffices(o, 3 * sites)
    ensures |AllSettings(o, numberBwp, sites)| == 3 * sites
    ensures forall id | 0 <= id < 3 * sites ::
              IsCell(o, numberBwp, sites, id, AllSettings(o, numberBwp, sites)[id])
  {
    hide AllSettings, StationOf;
    if sites > 0 {
      EveryCellOnce(o, numberBwp, sites, 0, 0);
    } else {
      NoCells(o, numberBwp);
    }
    forall id | 0 <= id < 3 * sites
      ensures var b, setting := StationOf(id, sites), AllSettings(o, numberBwp, sites)[id].1;
              && b < 3 * sites && AllSettings(o, numberBwp, sites)[id].0 == b && id == b % 3 * sites + b / 3
              && setting == SettingOf(o, numberBwp[b], id)
    {
      EveryCellOnce(o, numberBwp, sites, id, 0);
      EveryCellOnce(o, numberBwp, sites, id, StationOf(id, sites));
    }
  }

  lemma NoCells(o: Options, numberBwp: seq<nat>)
    requires numberBwp == []
    ensures AllSettings(o, numberBwp, 0) == []
  {}

  lemma AllSettingsAt(o: Options, numberBwp: seq<nat>, sites: nat, id: nat)
    requires |numberBwp| == 3 * sites && VectorSuffices(o, 3 * sites) && id < 3 * sites
    ensures var all := AllSettings(o, numberBwp, sites);
            && |all| == 3 * sites && StationOf(id, sites) < 3 * sites
            && all[id] == (StationOf(id, sites), SettingOf(o, numberBwp[StationOf(id, sites)], id))
  {
    hide SettingOf, Sector;
    SectorMembers(sites);
    var r := if id < sites then 0 else if id < 2 * sites then 1 else 2;
    StationIs(id, sites, r);
  }

  lemma StationIs(id: nat, sites: nat, r: nat)
    requires r < 3 && r * sites <= id < (r + 1) * sites
    ensures StationOf(id, sites) == 3 * (id - r * sites) + r
  {
    QuotientIs(id, sites, r, id - r * sites);
  }

  /** The two numberings are inverse to each other. */
  lemma StationAndNumber(sites: nat, id: nat, b: nat)
    requires id < 3 * sites && b < 3 * sites
    ensures StationOf(id, sites) == b <==> id == CellNumber(b, sites)
  {
    var r := if id < sites then 0 else if id < 2 * sites then 1 else 2;
    StationIs(id, sites, r);
    QuotientIs(3 * (id - r * sites) + r, 3, id - r * sites, r);
    var q := b % 3;
    assert q == 0 || q == 1 || q == 2;
    StationIs(q * sites + b / 3, sites, q);
  }

  /** Uniform rates, different patterns and different schemes: in TDD a cell gets the first scheme
      exactly when it gets the first pattern, and the second with the second. */
  lemma PatternAndSchemeAgree(o: Options, numberBwp: seq<nat>, sites: nat, id: nat)
    requires |numberBwp| == 3 * sites && id < 3 * sites
    requires !o.uniformMcs && !o.uniformPattern && o.uniformLambda
    ensures |AllSettings(o, numberBwp, sites)| == 3 * sites && StationOf(id, sites) < 3 * sites
    ensures var s := AllSettings(o, numberBwp, sites)[id].1;
            numberBwp[StationOf(id, sites)] == 1 ==>
              s.Tdd? && s.maxDlMcs == (if s.pattern1 then o.maxMcsDl1 else o.maxMcsDl2)
  {
    EveryCellOnce(o, numberBwp, sites, id, 0);
  }

  /** Given non-zero schemes to choose from, a cell is left with 0 exactly when nothing is uniform:
      no branch covers that case. */
  lemma EverythingNonUniformMeansZero(o: Options, numberBwp: seq<nat>, sites: nat, id: nat)
    requires |numberBwp| == 3 * sites && id < 3 * sites && VectorSuffices(o, 3 * sites)
    requires forall b | 0 <= b < 3 * sites :: numberBwp[b] == 1
    requires o.maxMcsDl1 != 0 && o.maxMcsDl2 != 0 && 0 !in o.maxMcsVector
    ensures |AllSettings(o, numberBwp, sites)| == 3 * sites
    ensures var s := AllSettings(o, numberBwp, sites)[id].1;
            s.Tdd? && (s.maxDlMcs == 0 <==> !o.uniformMcs && !o.uniformPattern && !o.uniformLambda)
  {
    EveryCellOnce(o, numberBwp, sites, id, 0);
  }

  /** Schemes are numbered sector by sector, packet rates site by site.  A base station finds its
      scheme and its rate under the same number exactly when twice its site number is its sector
      number times the number of other sites. */
  lemma SchemeAndRateIndex(b: nat, sites: nat)
    requires b < 3 * sites
    ensures CellNumber(b, sites) == b <==> 2 * (b / 3) == b % 3 * (sites - 1)
  {
    var r, k := b % 3, b / 3;
    assert b == 3 * k + r;
    assert r == 0 || r == 1 || r == 2;
  }

  /** So the numbers agree for all base stations only on a single site. */
  lemma IndicesAgreeOnSingleSite(sites: nat)
    requires sites >= 1
    ensures (forall b: nat | b < 3 * sites :: CellNumber(b, sites) == b) <==> sites == 1
  {
    SchemeAndRateIndex(1, sites);
    if sites == 1 {
      forall b: nat | b < 3
        ensures CellNumber(b, 1) == b
      {
        SchemeAndRateIndex(b, 1);
      }
    } else {
      assert CellNumber(1, sites) != 1;
    }
  }

  /** Uniform patterns, different schemes and different rates: base station b, whose packet rate is slot b
      of the rates, gets the scheme in slot CellNumber(b, sites) of the schemes. */
  lemma SchemeOfBaseStation(o: Options, numberBwp: seq<nat>, sites: nat, b: nat)
    requires |numberBwp| == 3 * sites && VectorSuffices(o, 3 * sites) && b < 3 * sites && numberBwp[b] == 1
    requires !o.uniformMcs && o.uniformPattern && !o.uniformLambda
    ensures var all, id := AllSettings(o, numberBwp, sites), CellNumber(b, sites);
            && id < |all| == 3 * sites <= |o.maxMcsVector|
            && all[id] == (b, Tdd(true, o.maxMcsVector[id]))
            && forall i | 0 <= i < |all| && all[i].0 == b :: i == id
  {
    hide AllSettings, StationOf;
    CellNumberInRange(b, sites);
    var all, id := AllSettings(o, numberBwp, sites), CellNumber(b, sites);
    EveryCellOnce(o, numberBwp, sites, id, b);
    forall i | 0 <= i < |all| && all[i].0 == b
      ensures i == id
    {
      EveryCellOnce(o, numberBwp, sites, i, b);
    }
  }

  lemma CellNumberInRange(b: nat, sites: nat)
    requires b < 3 * sites
    ensures CellNumber(b, sites) < 3 * sites
  {
    var r := b % 3;
    assert r == 0 || r == 1 || r == 2;
  }

  /** So if no two schemes are the same, all base stations get the scheme of their own rate's slot only
      on a single site. */
  lemma SchemeOfRateSlotExactly(o: Options, numberBwp: seq<nat>, sites: nat)
    requires |numberBwp| == 3 * sites && VectorSuffices(o, 3 * sites) && sites >= 1
    requires forall b | 0 <= b < 3 * sites :: numberBwp[b] == 1
    requires !o.uniformMcs && o.uniformPattern && !o.uniformLambda
    requires forall i, j | 0 <= i < j < |o.maxMcsVector| :: o.maxMcsVector[i] != o.maxMcsVector[j]
    ensures (forall b: nat | b < 3 * sites :: (b, Tdd(true, o.maxMcsVector[b])) in AllSettings(o, numberBwp, sites))
            <==> sites == 1
  {
    hide AllSettings, CellNumber;
    var all := AllSettings(o, numberBwp, sites);
    forall b: nat | b < 3 * sites
      ensures (b, Tdd(true, o.maxMcsVector[b])) in all <==> CellNumber(b, sites) == b
    {
      SchemeOfBaseStation(o, numberBwp, sites, b);
      if CellNumber(b, sites) == b {
        assert all[b] == (b, Tdd(true, o.maxMcsVector[b]));
      }
    }
    IndicesAgreeOnSingleSite(sites);
  }

  /** On two sites: base station 1 has its rate in slot 1 and its scheme in slot 2. */
  lemma TwoSitesDisagree()
    ensures var o := Options(false, true, false, 28, 28, [1, 2, 3, 4, 5, 6]);
            var settings := AllSettings(o, [1, 1, 1, 1, 1, 1], 2);
            settings[2] == (1, Tdd(true, 3)) && (1, Tdd(true, 2)) !in settings
  {
    hide AllSettings;
    var o := Options(false, true, false, 28, 28, [1, 2, 3, 4, 5, 6]);
    SchemeOfBaseStation(o, [1, 1, 1, 1, 1, 1], 2, 1);
  }
}
