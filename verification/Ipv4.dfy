/**
 IPv4 addresses as 32-bit numbers, prefixes, routing tables and the longest-prefix lookup of
 the simulator's static routing (section 5.2.4.3 of RFC 1812).
 */
module Ipv4 {
  import opened Wrappers

  type Address = a: int | 0 <= a < 0x1_0000_0000
  type PrefixLength = n: nat | n <= 32

  const ANY: Address := 0
  const LIMITED_BROADCAST: Address := 0xFFFF_FFFF

  type Octet = o: int | 0 <= o < 256

  function Quad(a: Octet, b: Octet, c: Octet, d: Octet): Address {
    a * 0x100_0000 + b * 0x1_0000 + c * 0x100 + d
  }

  function Pow2(n: nat): (r: nat)
    ensures r >= 1
  {
    if n == 0 then 1 else 2 * Pow2(n - 1)
  }

  /** How many addresses share a prefix of this length. */
  function Size(len: PrefixLength): (r: nat)
    ensures r >= 1
  {
    Pow2(32 - len)
  }

  lemma SizeValues()
    ensures Size(32) == 1 && Size(30) == 4 && Size(24) == 0x100 && Size(20) == 0x1000
    ensures Size(8) == 0x100_0000 && Size(0) == 0x1_0000_0000
  {
    assert Pow2(4) == 16;
    assert Pow2(8) == 16 * Pow2(4);
    assert Pow2(12) == 16 * Pow2(8);
    assert Pow2(16) == 16 * Pow2(12);
    assert Pow2(20) == 16 * Pow2(16);
    assert Pow2(24) == 16 * Pow2(20);
    assert Pow2(28) == 16 * Pow2(24);
    assert Pow2(32) == 16 * Pow2(28);
  }

  /** CombineMask: the address with its host bits cleared. */
  function NetworkOf(a: Address, len: PrefixLength): Address {
    DivMod(a, Size(len));
    a - a % Size(len)
  }

  /** The subnet broadcast address: the host bits set. */
  function BroadcastOf(a: Address, len: PrefixLength): int {
    NetworkOf(a, len) + Size(len) - 1
  }

  lemma DivMod(a: nat, s: nat)
    requires s >= 1
    ensures 0 <= a % s <= a && a % s < s
  {}

  predicate IsMulticast(a: Address) { Quad(224, 0, 0, 0) <= a < Quad(240, 0, 0, 0) }

  /** gateway ANY means that the destination is on the link. */
  datatype Route = Route(dest: Address, len: PrefixLength, gateway: Address, iface: nat)

  predicate Matches(r: Route, d: Address) {
    NetworkOf(d, r.len) == NetworkOf(r.dest, r.len)
  }

  /** For an aligned destination, matching is membership in one interval. */
  lemma MatchesInterval(r: Route, d: Address)
    requires r.dest % Size(r.len) == 0
    ensures Matches(r, d) <==> r.dest <= d < r.dest + Size(r.len)
  {
    var s := Size(r.len);
    AlignedInterval(r.dest, d, s);
  }

  lemma AlignedInterval(base: nat, d: nat, s: nat)
    requires s >= 1 && base % s == 0
    ensures d - d % s == base <==> base <= d < base + s
  {
    var q, k := d / s, base / s;
    assert d == q * s + d % s && base == k * s;
    assert q < k ==> (q + 1) * s <= k * s;
    assert k < q ==> (k + 1) * s <= q * s;
  }

  /** AddNetworkRouteTo: a route that is already present is not added again. */
  function WithRoute(table: seq<Route>, r: Route): seq<Route> {
    if r in table then table else table + [r]
  }

  /** The route the lookup scan ends with: among equally long matches a later one replaces an
      earlier one, except that a host route ends the scan. */
  function Best(table: seq<Route>, d: Address): Option<Route> {
    if table == [] then None else
      var before := Best(table[..|table| - 1], d);
      var r := table[|table| - 1];
      if Matches(r, d) && (before.None? || before.value.len <= r.len < 32 || before.value.len < r.len)
      then Some(r) else before
  }

  /** The scan itself, as LookupStatic runs it; all metrics are equal here. */
  method LookupStatic(table: seq<Route>, d: Address) returns (entry: Option<Route>)
    ensures entry == Best(table, d)
  {
    entry := None;
    var longest := 0;
    var k := 0;
    while k < |table|
      invariant 0 <= k <= |table|
      invariant entry == Best(table[..k], d)
      invariant longest == if entry.Some? then entry.value.len else 0
      invariant entry.Some? ==> entry.value.len < 32
    {
      assert table[..k + 1][..k] == table[..k];
      var r := table[k];
      if Matches(r, d) && r.len >= longest {
        longest := r.len;
        entry := Some(r);
        if r.len == 32 {
          HostRouteEndsScan(table, d, k);
          return;
        }
      }
      k := k + 1;
    }
    assert table[..k] == table;
  }

  lemma {:induction false} HostRouteEndsScan(table: seq<Route>, d: Address, k: nat)
    requires k < |table| && Best(table[..k + 1], d) == Some(table[k]) && table[k].len == 32
    ensures Best(table, d) == Some(table[k])
  {
    if k + 1 == |table| {
      assert table[..k + 1] == table;
    } else {
      var front := table[..|table| - 1];
      assert front[..k + 1] == table[..k + 1];
      HostRouteEndsScan(front, d, k);
    }
  }

  /** The lookup finds a route exactly when one matches, and no match is longer. */
  lemma {:induction false} BestIsLongest(table: seq<Route>, d: Address)
    ensures Best(table, d).None? <==> forall r | r in table :: !Matches(r, d)
    ensures Best(table, d).Some? ==>
              var b := Best(table, d).value;
              b in table && Matches(b, d) && forall r | r in table && Matches(r, d) :: r.len <= b.len
  {
    if table != [] {
      var front, last := table[..|table| - 1], table[|table| - 1];
      BestIsLongest(front, d);
      assert forall r :: r in table <==> r in front || r == last;
    }
  }

  /** Among equally long matches the last one in the table is found, but among host routes the first. */
  lemma {:induction false} TieBreak(table: seq<Route>, d: Address) returns (k: nat)
    requires Best(table, d).Some?
    ensures k < |table| && Best(table, d) == Some(table[k]) && Matches(table[k], d)
    ensures table[k].len < 32 ==> forall m | k < m < |table| && Matches(table[m], d) :: table[m].len < table[k].len
    ensures table[k].len == 32 ==> forall m | 0 <= m < k && Matches(table[m], d) :: table[m].len < 32
  {
    var front, last := table[..|table| - 1], |table| - 1;
    BestIsLongest(front, d);
    var before := Best(front, d);
    if Matches(table[last], d) && (before.None? || before.value.len < table[last].len
                                   || (before.value.len == table[last].len < 32)) {
      k := last;
    } else {
      k := TieBreak(front, d);
    }
  }

  /** A match that is longer than every other match is the one found. */
  lemma {:induction false} BestIs(table: seq<Route>, d: Address, r: Route)
    requires r in table && Matches(r, d)
    requires forall q | q in table && q != r && Matches(q, d) :: q.len < r.len
    ensures Best(table, d) == Some(r)
  {
    BestIsLongest(table, d);
  }
}
