/**
 The traffic quotas of the NGMN mix in contrib/nr/examples/cttc-nr-traffic-ngmn-mixed.cc: percentages
 become numbers of terminals by truncating divisions in 16 bits, and a running 16-bit index hands
 out the terminal ids.  The five kinds of traffic, in order: FTP, HTTP, video, VoIP, gaming.
 */
module Quota {
  import opened Wrappers

  const U16: nat := 0x1_0000
  const U32: nat := 0x1_0000_0000

  type Percentages = p: seq<nat> | |p| == 5 && forall k | 0 <= k < 5 :: p[k] < 256 witness [0, 0, 0, 0, 0]

  function SumTo(q: seq<nat>, k: nat): nat
    requires k <= |q|
  {
    if k == 0 then 0 else SumTo(q, k - 1) + q[k - 1]
  }

  /** (n / 10) * pct / 10, computed in 32 bits and stored in 16. */
  function QuotaOf(n: nat, pct: nat): nat {
    n / 10 * pct % U32 / 10 % U16
  }

  function Quotas(n: nat, p: Percentages): seq<nat> {
    seq(5, k requires 0 <= k < 5 => QuotaOf(n, p[k]))
  }

  /** The ids a counter gives out that has advanced start times before, wrapping at 16 bits. */
  function Block(start: nat, count: nat): set<nat> {
    set k | start <= k < start + count :: k % U16
  }

  predicate Accepted(n: nat, p: Percentages) { SumTo(p, 5) == 100 && n % 10 == 0 && n >= 10 }

  lemma {:induction false} SumOfFive(q: seq<nat>)
    requires |q| == 5
    ensures SumTo(q, 5) == q[0] + q[1] + q[2] + q[3] + q[4]
  {
    assert SumTo(q, 0) == 0;
    assert SumTo(q, 1) == q[0];
    assert SumTo(q, 2) == SumTo(q, 1) + q[1];
    assert SumTo(q, 3) == SumTo(q, 2) + q[2];
  }

  /** One of the five loops, with the index it continues from. */
  method InsertIds(count: nat, first: nat) returns (ids: set<nat>, index: nat)
    requires first < U16
    ensures ids == Block(first, count) && index == (first + count) % U16
  {
    ids, index := {}, first;
    for i := 0 to count
      invariant ids == Block(first, i) && index == (first + i) % U16
    {
      ids := ids + {index};
      index := (index + 1) % U16;
    }
  }

  /** Continuing from the wrapped index gives the ids of continuing from the unwrapped one. */
  lemma BlockWraps(start: nat, count: nat)
    ensures Block(start % U16, count) == Block(start, count)
  {
    var wrapped := start % U16;
    forall x | x in Block(start, count)
      ensures x in Block(wrapped, count)
    {
      var k :| start <= k < start + count && k % U16 == x;
      Shift(start, k - start);
      assert wrapped <= k - start + wrapped < wrapped + count;
    }
    forall x | x in Block(wrapped, count)
      ensures x in Block(start, count)
    {
      var k :| wrapped <= k < wrapped + count && k % U16 == x;
      Shift(start, k - wrapped);
      assert start <= k - wrapped + start < start + count;
    }
  }

  lemma Shift(start: nat, i: nat)
    ensures (i + start % U16) % U16 == (i + start) % U16
  {}

  /** The checks and the five loops.  n is the number of terminals per sector. */
  method AssignIds(n: nat, p: Percentages) returns (r: Result<seq<set<nat>>, string>)
    requires n < U32
    ensures r.Ok? <==> Accepted(n, p)
    ensures r.Ok? ==>
              |r.value| == 5 && forall k | 0 <= k < 5 :: r.value[k] == Block(SumTo(Quotas(n, p), k), Quotas(n, p)[k])
    ensures r.Ok? <==> p[0] + p[1] + p[2] + p[3] + p[4] == 100 && n % 10 == 0 && n >= 10
    ensures r.Ok? ==>
              forall k | 0 <= k < 5 :: |r.value[k]| == n / 10 * p[k] % 0x1_0000_0000 / 10 % 0x1_0000
    ensures r.Ok? && n < 0x1_0000 ==> forall k | 0 <= k < 5 :: |r.value[k]| == n / 10 * p[k] / 10
    ensures r.Ok? && n < 0x1_0000 ==>
              forall i, j, x, y | 0 <= i < j < 5 && x in r.value[i] && y in r.value[j] :: x < y
    ensures r.Ok? && n < 0x1_0000 ==>
              forall x: nat ::
                x in r.value[0] || x in r.value[1] || x in r.value[2] || x in r.value[3] || x in r.value[4] <==>
                x < |r.value[0]| + |r.value[1]| + |r.value[2]| + |r.value[3]| + |r.value[4]|
    ensures r.Ok? && n < 0x1_0000 ==> forall x: nat :: x in r.value[0] <==> x < n / 10 * p[0] / 10
  {
    hide Block, QuotaOf;
    SumOfFive(p);
    if p[0] + p[1] + p[2] + p[3] + p[4] != 100 {
      return Err("the sum of the percentages should give 100");
    }
    if n % 10 != 0 {
      return Err("the number of UEs per sector must be a multiple of 10");
    }
    if n / 10 < 1 {
      return Err("the number of UEs per sector must be at least 10");
    }
    ghost var q := Quotas(n, p);
    var ids: seq<set<nat>> := [];
    var index := 0;
    for k := 0 to 5
      invariant |ids| == k && index == SumTo(q, k) % U16
      invariant forall i | 0 <= i < k :: ids[i] == Block(SumTo(q, i), q[i])
    {
      var block;
      BlockWraps(SumTo(q, k), q[k]);
      block, index := InsertIds(QuotaOf(n, p[k]), index);
      ids := ids + [block];
    }
    BlocksHaveSizes(n, p, ids);
    if n < U16 {
      BlocksInOrder(n, p, ids);
    }
    return Ok(ids);
  }

  lemma {:induction false} BlockSize(start: nat, count: nat)
    requires count <= U16
    ensures |Block(start, count)| == count
  {
    if count == 0 {
      assert Block(start, 0) == {};
    } else {
      BlockSize(start, count - 1);
      var last := start + count - 1;
      forall k | start <= k < last
        ensures k % U16 != last % U16
      {
        Apart(k, last);
      }
      assert Block(start, count) == Block(start, count - 1) + {last % U16};
    }
  }

  lemma Apart(k: nat, last: nat)
    requires k < last < k + U16
    ensures k % U16 != last % U16
  {}

  /** Every kind of traffic gets as many ids as its percentage asks for, computed as the code does. */
  lemma BlocksHaveSizes(n: nat, p: Percentages, ids: seq<set<nat>>)
    requires |ids| == 5 && forall k | 0 <= k < 5 :: ids[k] == Block(SumTo(Quotas(n, p), k), Quotas(n, p)[k])
    ensures forall k | 0 <= k < 5 :: |ids[k]| == n / 10 * p[k] % 0x1_0000_0000 / 10 % 0x1_0000
  {
    forall k | 0 <= k < 5
      ensures |ids[k]| == n / 10 * p[k] % 0x1_0000_0000 / 10 % 0x1_0000
    {
      BlockSize(SumTo(Quotas(n, p), k), Quotas(n, p)[k]);
    }
  }

  lemma {:induction false} BlockIs(start: nat, count: nat, x: nat)
    requires start + count <= U16
    ensures x in Block(start, count) <==> start <= x < start + count
  {
    if start <= x < start + count {
      assert x % U16 == x;
    }
  }

  /** Below 16 bits the ids of the kinds follow one another, from 0 on and in the order of the kinds. */
  lemma BlocksInOrder(n: nat, p: Percentages, ids: seq<set<nat>>)
    requires Accepted(n, p) && n < U16
    requires |ids| == 5 && forall k | 0 <= k < 5 :: ids[k] == Block(SumTo(Quotas(n, p), k), Quotas(n, p)[k])
    ensures forall k | 0 <= k < 5 :: |ids[k]| == n / 10 * p[k] / 10
    ensures forall i, j, x, y | 0 <= i < j < 5 && x in ids[i] && y in ids[j] :: x < y
    ensures forall x: nat ::
              x in ids[0] || x in ids[1] || x in ids[2] || x in ids[3] || x in ids[4] <==>
              x < |ids[0]| + |ids[1]| + |ids[2]| + |ids[3]| + |ids[4]|
    ensures forall x: nat :: x in ids[0] <==> x < n / 10 * p[0] / 10
  {
    hide Block, QuotaOf, Accepted;
    var q := Quotas(n, p);
    RoundingLoss(n, p);
    BlocksHaveSizes(n, p, ids);
    forall k, x: nat | 0 <= k < 5
      ensures x in ids[k] <==> SumTo(q, k) <= x < SumTo(q, k + 1)
    {
      SumGrows(q, k + 1, 5);
      BlockIs(SumTo(q, k), q[k], x);
    }
    forall k | 0 <= k < 5
      ensures |ids[k]| == n / 10 * p[k] / 10 == q[k]
    {
      AtMostAll(n, p, k);
      BelowSixteenBits(n, p[k]);
      QuotaIsTruncated(n, p[k]);
    }
    forall i, j, x, y | 0 <= i < j < 5 && x in ids[i] && y in ids[j]
      ensures x < y
    {
      SumGrows(q, i + 1, j);
    }
    SumOfFive(q);
    forall x: nat | x < SumTo(q, 5)
      ensures x in ids[0] || x in ids[1] || x in ids[2] || x in ids[3] || x in ids[4]
    {
      var j := FindBlock(q, 5, x);
      assert x in ids[j] && (j == 0 || j == 1 || j == 2 || j == 3 || j == 4);
    }
    SumGrows(q, 1, 5);
    SumGrows(q, 2, 5);
    SumGrows(q, 3, 5);
    SumGrows(q, 4, 5);
    assert SumTo(q, 1) == q[0];
  }

  lemma AtMostAll(n: nat, p: Percentages, k: nat)
    requires Accepted(n, p) && k < 5
    ensures p[k] <= 100
  {
    SumOfFive(p);
  }

  lemma QuotaIsTruncated(n: nat, pct: nat)
    ensures QuotaOf(n, pct) == n / 10 * pct % 0x1_0000_0000 / 10 % 0x1_0000
  {}

  lemma BelowSixteenBits(n: nat, pct: nat)
    requires n < U16 && pct <= 100
    ensures n / 10 * pct % 0x1_0000_0000 / 10 % 0x1_0000 == n / 10 * pct / 10
  {
    ShareBound(n / 10, pct);
    NothingCutOffBelow(n / 10 * pct);
  }

  lemma ShareBound(m: nat, pct: nat)
    requires pct <= 100
    ensures m * pct <= 100 * m
  {
    assert m * (100 - pct) == 100 * m - m * pct;
  }

  lemma NothingCutOffBelow(x: nat)
    requires x < 10 * U16
    ensures x % U32 / 10 % U16 == x / 10
  {
    assert x % U32 == x;
    assert x / 10 % U16 == x / 10;
  }

  // ---------- what the blocks amount to ----------

  predicate InBlock(q: seq<nat>, k: nat, x: nat)
    requires k < |q|
  {
    x in Block(SumTo(q, k), q[k])
  }

  ghost predicate Assigned(q: seq<nat>, x: nat) { exists k | 0 <= k < |q| :: InBlock(q, k, x) }

  ghost predicate Disjoint(q: seq<nat>) {
    forall i, j, x: nat | 0 <= i < j < |q| && InBlock(q, i, x) :: !InBlock(q, j, x)
  }

  lemma {:induction false} SumGrows(q: seq<nat>, i: nat, j: nat)
    requires i <= j <= |q|
    ensures SumTo(q, i) <= SumTo(q, j)
  {
    if i < j {
      SumGrows(q, i, j - 1);
    }
  }

  /** A number below the total falls into one block. */
  lemma {:induction false} FindBlock(q: seq<nat>, k: nat, x: nat) returns (i: nat)
    requires k <= |q| && x < SumTo(q, k)
    ensures i < k && SumTo(q, i) <= x < SumTo(q, i) + q[i]
  {
    if x >= SumTo(q, k - 1) {
      i := k - 1;
    } else {
      i := FindBlock(q, k - 1, x);
    }
  }

  /** Without wrap-around the blocks are consecutive: together they are exactly the ids below the
      total, and they are disjoint. */
  lemma {:induction false} ConsecutiveBlocks(q: seq<nat>)
    requires SumTo(q, |q|) <= U16
    ensures forall x: nat :: Assigned(q, x) <==> x < SumTo(q, |q|)
    ensures Disjoint(q)
  {
    forall k, x: nat | 0 <= k < |q|
      ensures InBlock(q, k, x) <==> SumTo(q, k) <= x < SumTo(q, k) + q[k]
    {
      SumGrows(q, k + 1, |q|);
      if SumTo(q, k) <= x < SumTo(q, k) + q[k] {
        assert x % U16 == x;
      }
    }
    forall x: nat | x < SumTo(q, |q|)
      ensures Assigned(q, x)
    {
      var k := FindBlock(q, |q|, x);
      assert InBlock(q, k, x);
    }
    forall k, x: nat | 0 <= k < |q| && InBlock(q, k, x)
      ensures x < SumTo(q, |q|)
    {
      SumGrows(q, k + 1, |q|);
    }
    forall i, j, x: nat | 0 <= i < j < |q| && InBlock(q, i, x)
      ensures !InBlock(q, j, x)
    {
      SumGrows(q, i + 1, j);
    }
  }

  /** The kinds of traffic share no terminal exactly when the quotas fit the 16-bit index. */
  lemma DisjointExactlyWhenTheyFit(n: nat, p: Percentages)
    ensures Disjoint(Quotas(n, p)) <==> SumTo(Quotas(n, p), 5) <= U16
  {
    var q := Quotas(n, p);
    if SumTo(q, 5) <= U16 {
      ConsecutiveBlocks(q);
    } else {
      var i := FindBlock(q, 5, 0);
      var j := FindBlock(q, 5, U16);
      assert 0 % U16 == 0 && U16 % U16 == 0;
      assert InBlock(q, i, 0) && InBlock(q, j, 0);
      assert i != j;
    }
  }

  // ---------- rounding ----------

  /** Ten times the unrounded quota. */
  function Share(n: nat, pct: nat): nat { n / 10 * pct }

  /** Up to 16 bits nothing is cut off, and rounding loses the last digit of the share. */
  lemma QuotaIs(n: nat, pct: nat)
    requires n < U16 && pct <= 100
    ensures 10 * QuotaOf(n, pct) == Share(n, pct) - Share(n, pct) % 10
  {
    var m := n / 10;
    assert m * pct <= m * 100;
    NothingCutOff(m * pct);
  }

  lemma NothingCutOff(x: nat)
    requires x < 10 * U16
    ensures 10 * (x % U32 / 10 % U16) == x - x % 10
  {
    assert x % U32 == x;
    assert x / 10 % U16 == x / 10;
  }

  lemma SharesAddUp(n: nat, p: Percentages)
    requires Accepted(n, p)
    ensures Share(n, p[0]) + Share(n, p[1]) + Share(n, p[2]) + Share(n, p[3]) + Share(n, p[4]) == 10 * n
  {
    SumOfFive(p);
    var m := n / 10;
    assert m * (p[0] + p[1] + p[2] + p[3] + p[4]) == m * p[0] + m * p[1] + m * p[2] + m * p[3] + m * p[4];
  }

  function Loss(n: nat, p: Percentages): nat {
    Share(n, p[0]) % 10 + Share(n, p[1]) % 10 + Share(n, p[2]) % 10 + Share(n, p[3]) % 10 + Share(n, p[4]) % 10
  }

  lemma RoundingLoss(n: nat, p: Percentages)
    requires Accepted(n, p) && n < U16
    ensures 10 * SumTo(Quotas(n, p), 5) == 10 * n - Loss(n, p)
  {
    hide QuotaOf, Share;
    SumOfFive(p);
    SumOfFive(Quotas(n, p));
    SharesAddUp(n, p);
    forall k | 0 <= k < 5
      ensures 10 * QuotaOf(n, p[k]) == Share(n, p[k]) - Share(n, p[k]) % 10
    {
      QuotaIs(n, p[k]);
    }
  }

  /** Accepted inputs that fit 16 bits: the kinds share no terminal, they take the first ids of the
      sector, and at most four terminals are left without traffic. */
  lemma QuotaBound(n: nat, p: Percentages)
    requires Accepted(n, p) && n < U16
    ensures var q := Quotas(n, p);
            && n - 4 <= SumTo(q, 5) <= n && Disjoint(q)
            && forall x: nat :: Assigned(q, x) <==> x < SumTo(q, 5)
  {
    RoundingLoss(n, p);
    ConsecutiveBlocks(Quotas(n, p));
  }

  /** Everybody gets traffic exactly when the sector fits 16 bits and no quota is rounded. */
  lemma CoversExactlyWhenUnrounded(n: nat, p: Percentages)
    requires Accepted(n, p)
    ensures (forall x: nat | x < n :: Assigned(Quotas(n, p), x)) <==>
            n < U16 && forall k | 0 <= k < 5 :: n / 10 * p[k] % 10 == 0
  {
    var q, m := Quotas(n, p), n / 10;
    if n < U16 {
      QuotaBound(n, p);
      RoundingLoss(n, p);
      if SumTo(q, 5) < n {
        assert !Assigned(q, SumTo(q, 5));
        assert Loss(n, p) > 0;
        assert exists k | 0 <= k < 5 :: m * p[k] % 10 != 0;
      } else {
        assert Loss(n, p) == 0;
        assert m * p[0] % 10 == 0 && m * p[1] % 10 == 0 && m * p[2] % 10 == 0;
        assert m * p[3] % 10 == 0 && m * p[4] % 10 == 0;
      }
    } else {
      assert !Assigned(q, U16);
    }
  }

  /** Multiples of ten are enough, as the help text suggests. */
  lemma MultiplesOfTenCover(n: nat, p: Percentages)
    requires Accepted(n, p) && n < U16 && forall k | 0 <= k < 5 :: p[k] % 10 == 0
    ensures forall x: nat | x < n :: Assigned(Quotas(n, p), x)
  {
    forall k | 0 <= k < 5
      ensures n / 10 * p[k] % 10 == 0
    {
      var m, t := n / 10, p[k] / 10;
      assert m * p[k] == 10 * (m * t);
    }
    CoversExactlyWhenUnrounded(n, p);
  }

  /** But they are not necessary: with 100 terminals any percentages do. */
  lemma OtherPercentagesCoverToo(p: Percentages)
    requires Accepted(100, p)
    ensures forall x: nat | x < 100 :: Assigned(Quotas(100, p), x)
  {
    CoversExactlyWhenUnrounded(100, p);
  }

  /** For instance these, the first two of which are no multiples of ten. */
  lemma FivesCover(x: nat)
    requires x < 100
    ensures Accepted(100, [5, 5, 30, 30, 30]) && Assigned(Quotas(100, [5, 5, 30, 30, 30]), x)
  {
    var p: Percentages := [5, 5, 30, 30, 30];
    SumOfFive(p);
    OtherPercentagesCoverToo(p);
  }

  /** Beyond 16 bits the quota itself can vanish: 655360 terminals, all meant for FTP, get nothing. */
  lemma QuotaVanishes(x: nat)
    ensures Accepted(655360, [100, 0, 0, 0, 0]) && !Assigned(Quotas(655360, [100, 0, 0, 0, 0]), x)
  {
    var p: Percentages := [100, 0, 0, 0, 0];
    SumOfFive(p);
    assert forall k | 0 <= k < 5 :: Quotas(655360, p)[k] == 0;
  }
}
