/** The death and seeding rules of main.py, as functions of the temperatures that
    the temperature pass has just produced. */
module Lifecycle {
  import opened Builtins
  import opened Flowers

  /** Every flower has a positive sprite width (the divisor of its mean). */
  predicate Sized(fs: seq<Flower>)
  {
    forall f :: f in fs ==> 0.0 < f.species.width
  }

  /** Every class of the table has a positive sprite width. */
  predicate SizedTable(table: seq<Species>)
  {
    forall s :: s in table ==> 0.0 < s.width
  }

  /** A cell's contribution to a sum: its temperature when it exists, else nothing. */
  function Cell(temps: seq<real>, i: int): real
  {
    if 0 <= i < |temps| then temps[i] else 0.0
  }

  /** Sum of the temperatures of the cells of `range(lo, hi)` that lie in the array. */
  function SpanSum(temps: seq<real>, lo: int, hi: int): real
    decreases hi - lo
  {
    if hi <= lo then 0.0 else SpanSum(temps, lo, hi - 1) + Cell(temps, hi - 1)
  }

  /** The first cell of a flower's span, `int(x)`. */
  function SpanStart(f: Flower): int
  {
    Trunc(f.x)
  }

  /** One past the last cell of a flower's span, `int(x + width)`. */
  function SpanEnd(f: Flower): int
  {
    Trunc(f.x + f.species.width)
  }

  /** A flower's mean temperature: the in-range sum over its span divided by its
      full sprite width. */
  function MeanTemp(f: Flower, temps: seq<real>): real
    requires 0.0 < f.species.width
  {
    SpanSum(temps, SpanStart(f), SpanEnd(f)) / f.species.width
  }

  /** A flower dies when its mean temperature leaves its survival band. */
  predicate Dies(f: Flower, temps: seq<real>)
    requires 0.0 < f.species.width
  {
    MeanTemp(f, temps) > f.species.maxTemp || MeanTemp(f, temps) < f.species.minTemp
  }

  /** The flowers that outlive the death pass, in their original order. */
  function Survivors(fs: seq<Flower>, temps: seq<real>): seq<Flower>
    requires Sized(fs)
  {
    if fs == [] then []
    else
      var n := |fs| - 1;
      Survivors(fs[..n], temps) + (if Dies(fs[n], temps) then [] else [fs[n]])
  }

  /** `difference_update` of a set of flowers, identified by their positions. */
  function RemoveIndices(fs: seq<Flower>, dead: set<int>): seq<Flower>
  {
    if fs == [] then []
    else
      var n := |fs| - 1;
      RemoveIndices(fs[..n], dead) + (if n in dead then [] else [fs[n]])
  }

  /** Cells outside the array add nothing to a span's sum: clipping the span to the
      array leaves the sum unchanged (the divisor, the full width, is not clipped). */
  lemma {:induction false} SpanSumClipped(temps: seq<real>, lo: int, hi: int)
    ensures SpanSum(temps, lo, hi) ==
            SpanSum(temps, if lo < 0 then 0 else lo, if hi < |temps| then hi else |temps|)
    decreases hi - lo
  {
    if lo < hi {
      SpanSumClipped(temps, lo, hi - 1);
    }
  }

  /** A flower standing wholly off the array has mean 0: it dies exactly when its
      class cannot survive at 0, as a red flower cannot. */
  lemma {:induction false} OffscreenFlowerDies(f: Flower, temps: seq<real>)
    requires 0.0 < f.species.width
    requires SpanEnd(f) <= 0 || |temps| <= SpanStart(f)
    ensures MeanTemp(f, temps) == 0.0
    ensures Dies(f, temps) <==> (f.species.maxTemp < 0.0 || 0.0 < f.species.minTemp)
  {
    OffSpanSumsToZero(temps, SpanStart(f), SpanEnd(f));
  }

  lemma {:induction false} OffSpanSumsToZero(temps: seq<real>, lo: int, hi: int)
    requires hi <= 0 || |temps| <= lo
    ensures SpanSum(temps, lo, hi) == 0.0
    decreases hi - lo
  {
    if lo < hi {
      OffSpanSumsToZero(temps, lo, hi - 1);
    }
  }

  /** With every temperature in [0, 1], a span's sum lies between 0 and its number
      of cells. */
  lemma {:induction false} SpanSumBounds(temps: seq<real>, lo: int, hi: int)
    requires forall i :: 0 <= i < |temps| ==> 0.0 <= temps[i] <= 1.0
    requires lo <= hi
    ensures 0.0 <= SpanSum(temps, lo, hi) <= (hi - lo) as real
    decreases hi - lo
  {
    if lo < hi {
      SpanSumBounds(temps, lo, hi - 1);
    }
  }

  /** A flower survives the death pass exactly when its mean stays in its band, and
      every copy of a surviving flower survives. */
  lemma {:induction false} SurvivorsExactly(fs: seq<Flower>, temps: seq<real>)
    requires Sized(fs)
    ensures forall f :: f in Survivors(fs, temps) <==> f in fs && !Dies(f, temps)
    ensures forall f :: f in fs && !Dies(f, temps) ==>
              multiset(Survivors(fs, temps))[f] == multiset(fs)[f]
  {
    if fs != [] {
      var n := |fs| - 1;
      assert fs == fs[..n] + [fs[n]];
      SurvivorsExactly(fs[..n], temps);
    }
  }

  /** The death pass never adds flowers, and every survivor keeps a positive width. */
  lemma SurvivorsShrink(fs: seq<Flower>, temps: seq<real>)
    requires Sized(fs)
    ensures |Survivors(fs, temps)| <= |fs|
    ensures Sized(Survivors(fs, temps))
  {
    if fs != [] {
      SurvivorsShrink(fs[..|fs| - 1], temps);
    }
    SurvivorsExactly(fs, temps);
  }

  /** One flower's fate does not depend on the others: the death pass on a
      concatenation is the concatenation of the death passes. */
  lemma {:induction false} SurvivorsAppend(a: seq<Flower>, b: seq<Flower>, temps: seq<real>)
    requires Sized(a) && Sized(b)
    ensures Sized(a + b)
    ensures Survivors(a + b, temps) == Survivors(a, temps) + Survivors(b, temps)
  {
    if b == [] {
      assert a + b == a;
    } else {
      var n := |b| - 1;
      assert (a + b)[..|a + b| - 1] == a + b[..n];
      assert (a + b)[|a + b| - 1] == b[n];
      SurvivorsAppend(a, b[..n], temps);
    }
  }

  /** Removing, all at once after the pass, the positions collected as dead gives
      the survivors. */
  lemma {:induction false} RemoveDeadIsSurvivors(fs: seq<Flower>, dead: set<int>, temps: seq<real>)
    requires Sized(fs)
    requires forall j :: 0 <= j < |fs| ==> (j in dead <==> Dies(fs[j], temps))
    ensures RemoveIndices(fs, dead) == Survivors(fs, temps)
  {
    if fs != [] {
      var n := |fs| - 1;
      var front := fs[..n];
      assert forall j :: 0 <= j < n ==> front[j] == fs[j];
      RemoveDeadIsSurvivors(front, dead, temps);
    }
  }

  // ---------------------------------------------------------------------------
  // Seeding

  /** The seeding threshold of a random draw. */
  const SeedChance: real := 0.99

  /** A cell's temperature lies strictly inside a class's seeding band. */
  predicate InSeedBand(s: Species, t: real)
  {
    t < s.seedMaxTemp && t > s.seedMinTemp
  }

  /** The seeding pass from cell `i`, class `j` on, with `k` draws consumed so far and
      `acc` seeded so far: it returns every flower seeded and the draws consumed. A
      draw is consumed only for a cell in the class's band. */
  function SeedScan(temps: seq<real>, table: seq<Species>, draws: nat -> real,
                    i: nat, j: nat, k: nat, acc: seq<Flower>): (res: (seq<Flower>, nat))
    requires i <= |temps| && j <= |table|
    decreases |temps| - i, |table| - j
  {
    if i == |temps| then (acc, k)
    else if j == |table| then SeedScan(temps, table, draws, i + 1, 0, k, acc)
    else if InSeedBand(table[j], temps[i]) then
      if draws(k) > SeedChance
      then SeedScan(temps, table, draws, i, j + 1, k + 1, acc + [NewFlower(table[j], i as real)])
      else SeedScan(temps, table, draws, i, j + 1, k + 1, acc)
    else SeedScan(temps, table, draws, i, j + 1, k, acc)
  }

  /** The flowers one seeding pass adds, and the number of draws it consumes. */
  function Seeds(temps: seq<real>, table: seq<Species>, draws: nat -> real): (seq<Flower>, nat)
  {
    SeedScan(temps, table, draws, 0, 0, 0, [])
  }

  /** Number of classes of `table` whose seeding band holds `t`. */
  function CountInBand(table: seq<Species>, t: real): nat
  {
    if table == [] then 0 else (if InSeedBand(table[0], t) then 1 else 0) + CountInBand(table[1..], t)
  }

  /** Number of (cell, class) pairs whose seeding band holds the cell's temperature. */
  function EligiblePairs(temps: seq<real>, table: seq<Species>): nat
  {
    if temps == [] then 0 else CountInBand(table, temps[0]) + EligiblePairs(temps[1..], table)
  }

  /** Eligible pairs still ahead of a scan standing at cell `i`, class `j`. */
  function PairsAhead(temps: seq<real>, table: seq<Species>, i: nat, j: nat): nat
    requires i <= |temps| && j <= |table|
  {
    if i == |temps| then 0 else CountInBand(table[j..], temps[i]) + EligiblePairs(temps[i + 1..], table)
  }

  /** The scan only appends to what was seeded before it. */
  lemma {:induction false} SeedScanExtends(temps: seq<real>, table: seq<Species>, draws: nat -> real,
                                           i: nat, j: nat, k: nat, acc: seq<Flower>)
    requires i <= |temps| && j <= |table|
    ensures |acc| <= |SeedScan(temps, table, draws, i, j, k, acc).0|
    ensures SeedScan(temps, table, draws, i, j, k, acc).0[..|acc|] == acc
    decreases |temps| - i, |table| - j
  {
    if i == |temps| {
    } else if j == |table| {
      SeedScanExtends(temps, table, draws, i + 1, 0, k, acc);
    } else if InSeedBand(table[j], temps[i]) {
      if draws(k) > SeedChance {
        var acc' := acc + [NewFlower(table[j], i as real)];
        SeedScanExtends(temps, table, draws, i, j + 1, k + 1, acc');
        assert acc'[..|acc|] == acc;
      } else {
        SeedScanExtends(temps, table, draws, i, j + 1, k + 1, acc);
      }
    } else {
      SeedScanExtends(temps, table, draws, i, j + 1, k, acc);
    }
  }

  /** Every flower the scan adds is a fresh flower of a class of the table, on the
      ground, at a cell whose temperature lies in that class's seeding band. */
  lemma {:induction false} SeedScanOnlyInBand(temps: seq<real>, table: seq<Species>, draws: nat -> real,
                                              i: nat, j: nat, k: nat, acc: seq<Flower>)
    requires i <= |temps| && j <= |table|
    ensures forall f :: f in SeedScan(temps, table, draws, i, j, k, acc).0 ==>
              f in acc ||
              (f.y == 0.0 && f.species in table &&
               exists c :: 0 <= c < |temps| && f.x == c as real && InSeedBand(f.species, temps[c]))
    decreases |temps| - i, |table| - j
  {
    if i == |temps| {
    } else if j == |table| {
      SeedScanOnlyInBand(temps, table, draws, i + 1, 0, k, acc);
    } else if InSeedBand(table[j], temps[i]) {
      if draws(k) > SeedChance {
        var g := NewFlower(table[j], i as real);
        SeedScanOnlyInBand(temps, table, draws, i, j + 1, k + 1, acc + [g]);
        assert InSeedBand(g.species, temps[i]);
      } else {
        SeedScanOnlyInBand(temps, table, draws, i, j + 1, k + 1, acc);
      }
    } else {
      SeedScanOnlyInBand(temps, table, draws, i, j + 1, k, acc);
    }
  }

  /** The scan consumes one draw per eligible (cell, class) pair, whatever the draws. */
  lemma {:induction false} SeedScanDraws(temps: seq<real>, table: seq<Species>, draws: nat -> real,
                                         i: nat, j: nat, k: nat, acc: seq<Flower>)
    requires i <= |temps| && j <= |table|
    ensures SeedScan(temps, table, draws, i, j, k, acc).1 == k + PairsAhead(temps, table, i, j)
    decreases |temps| - i, |table| - j
  {
    if i == |temps| {
    } else if j == |table| {
      SeedScanDraws(temps, table, draws, i + 1, 0, k, acc);
      assert table[j..] == [];
      if i + 1 < |temps| {
        assert temps[i + 1..][0] == temps[i + 1] && temps[i + 1..][1..] == temps[i + 2..];
      }
    } else {
      assert table[j..][0] == table[j] && table[j..][1..] == table[j + 1..];
      if InSeedBand(table[j], temps[i]) {
        var acc' := if draws(k) > SeedChance then acc + [NewFlower(table[j], i as real)] else acc;
        SeedScanDraws(temps, table, draws, i, j + 1, k + 1, acc');
      } else {
        SeedScanDraws(temps, table, draws, i, j + 1, k, acc);
      }
    }
  }

  /** The flowers the in-band (cell, class) pairs from cell `i`, class `j` on would
      seed, one per pair, in scan order, whatever the draws. */
  function EligibleFrom(temps: seq<real>, table: seq<Species>, i: nat, j: nat): seq<Flower>
    requires i <= |temps| && j <= |table|
    decreases |temps| - i, |table| - j
  {
    if i == |temps| then []
    else if j == |table| then EligibleFrom(temps, table, i + 1, 0)
    else (if InSeedBand(table[j], temps[i]) then [NewFlower(table[j], i as real)] else [])
         + EligibleFrom(temps, table, i, j + 1)
  }

  /** The candidates whose draw, taken in order from draw `k` on, exceeds 0.99. */
  function Lucky(candidates: seq<Flower>, draws: nat -> real, k: nat): seq<Flower>
  {
    if candidates == [] then []
    else (if draws(k) > SeedChance then [candidates[0]] else []) + Lucky(candidates[1..], draws, k + 1)
  }

  /** Number of draws above 0.99 among draws `k` to `m - 1`. */
  function HighDraws(draws: nat -> real, k: nat, m: nat): nat
    decreases m - k
  {
    if m <= k then 0 else (if draws(k) > SeedChance then 1 else 0) + HighDraws(draws, k + 1, m)
  }

  /** There is one candidate per in-band pair. */
  lemma {:induction false} EligibleFromCount(temps: seq<real>, table: seq<Species>, i: nat, j: nat)
    requires i <= |temps| && j <= |table|
    ensures |EligibleFrom(temps, table, i, j)| == PairsAhead(temps, table, i, j)
    decreases |temps| - i, |table| - j
  {
    if i == |temps| {
    } else if j == |table| {
      EligibleFromCount(temps, table, i + 1, 0);
      assert table[j..] == [];
      if i + 1 < |temps| {
        assert temps[i + 1..][0] == temps[i + 1] && temps[i + 1..][1..] == temps[i + 2..];
      }
    } else {
      assert table[j..][0] == table[j] && table[j..][1..] == table[j + 1..];
      EligibleFromCount(temps, table, i, j + 1);
    }
  }

  /** The scan adds exactly the in-band pairs whose own draw exceeds 0.99: the m-th
      in-band pair ahead takes draw `k + m` and seeds its flower iff that draw is high. */
  lemma {:induction false} SeedScanIsLuckyPairs(temps: seq<real>, table: seq<Species>, draws: nat -> real,
                                                i: nat, j: nat, k: nat, acc: seq<Flower>)
    requires i <= |temps| && j <= |table|
    ensures SeedScan(temps, table, draws, i, j, k, acc).0 == acc + Lucky(EligibleFrom(temps, table, i, j), draws, k)
    decreases |temps| - i, |table| - j
  {
    if i == |temps| {
      assert acc + [] == acc;
    } else if j == |table| {
      SeedScanIsLuckyPairs(temps, table, draws, i + 1, 0, k, acc);
    } else if InSeedBand(table[j], temps[i]) {
      var g := NewFlower(table[j], i as real);
      var rest := EligibleFrom(temps, table, i, j + 1);
      assert EligibleFrom(temps, table, i, j) == [g] + rest;
      assert ([g] + rest)[0] == g && ([g] + rest)[1..] == rest;
      var acc' := if draws(k) > SeedChance then acc + [g] else acc;
      SeedScanIsLuckyPairs(temps, table, draws, i, j + 1, k + 1, acc');
      if draws(k) > SeedChance {
        assert acc + [g] + Lucky(rest, draws, k + 1) == acc + ([g] + Lucky(rest, draws, k + 1));
      } else {
        assert [] + Lucky(rest, draws, k + 1) == Lucky(rest, draws, k + 1);
      }
    } else {
      assert [] + EligibleFrom(temps, table, i, j + 1) == EligibleFrom(temps, table, i, j + 1);
      SeedScanIsLuckyPairs(temps, table, draws, i, j + 1, k, acc);
    }
  }

  /** As many candidates seed as there are high draws among those they take. */
  lemma {:induction false} LuckyCount(candidates: seq<Flower>, draws: nat -> real, k: nat)
    ensures |Lucky(candidates, draws, k)| == HighDraws(draws, k, k + |candidates|)
  {
    if candidates != [] {
      LuckyCount(candidates[1..], draws, k + 1);
    }
  }

  /** With every draw high every candidate seeds; with every draw low none does. */
  lemma {:induction false} LuckyExtremes(candidates: seq<Flower>, draws: nat -> real, k: nat)
    ensures (forall n :: draws(n) > SeedChance) ==> Lucky(candidates, draws, k) == candidates
    ensures (forall n :: draws(n) <= SeedChance) ==> Lucky(candidates, draws, k) == []
  {
    if candidates != [] {
      LuckyExtremes(candidates[1..], draws, k + 1);
      assert candidates == [candidates[0]] + candidates[1..];
    }
  }

  /** With every draw above the threshold, each in-band pair seeds exactly its own
      flower, in scan order; with every draw at or below it, nothing is seeded. */
  lemma SeedScanByLuck(temps: seq<real>, table: seq<Species>, draws: nat -> real,
                       i: nat, j: nat, k: nat, acc: seq<Flower>)
    requires i <= |temps| && j <= |table|
    ensures (forall n :: draws(n) > SeedChance) ==>
              SeedScan(temps, table, draws, i, j, k, acc).0 == acc + EligibleFrom(temps, table, i, j)
    ensures (forall n :: draws(n) > SeedChance) ==>
              |SeedScan(temps, table, draws, i, j, k, acc).0| == |acc| + PairsAhead(temps, table, i, j)
    ensures (forall n :: draws(n) <= SeedChance) ==>
              SeedScan(temps, table, draws, i, j, k, acc).0 == acc
  {
    SeedScanIsLuckyPairs(temps, table, draws, i, j, k, acc);
    LuckyExtremes(EligibleFrom(temps, table, i, j), draws, k);
    EligibleFromCount(temps, table, i, j);
    assert acc + [] == acc;
  }

  /** The scan adds as many flowers as there were high draws among those it consumed. */
  lemma SeedScanCountsHighDraws(temps: seq<real>, table: seq<Species>, draws: nat -> real,
                                i: nat, j: nat, k: nat, acc: seq<Flower>)
    requires i <= |temps| && j <= |table|
    ensures |SeedScan(temps, table, draws, i, j, k, acc).0| ==
            |acc| + HighDraws(draws, k, SeedScan(temps, table, draws, i, j, k, acc).1)
  {
    SeedScanIsLuckyPairs(temps, table, draws, i, j, k, acc);
    SeedScanDraws(temps, table, draws, i, j, k, acc);
    EligibleFromCount(temps, table, i, j);
    LuckyCount(EligibleFrom(temps, table, i, j), draws, k);
  }

  /** One seeding pass: it seeds exactly the in-band pairs whose own draw is high,
      consuming one draw per in-band pair; it seeds one flower per high draw; with
      every draw high it seeds every in-band pair's flower, with every draw low none;
      and every seeded flower stands at a cell inside its class's seeding band. */
  lemma SeedsSummary(temps: seq<real>, table: seq<Species>, draws: nat -> real)
    ensures Seeds(temps, table, draws).0 == Lucky(EligibleFrom(temps, table, 0, 0), draws, 0)
    ensures Seeds(temps, table, draws).1 == EligiblePairs(temps, table)
    ensures |Seeds(temps, table, draws).0| == HighDraws(draws, 0, Seeds(temps, table, draws).1)
    ensures (forall n :: draws(n) > SeedChance) ==> Seeds(temps, table, draws).0 == EligibleFrom(temps, table, 0, 0)
    ensures (forall n :: draws(n) > SeedChance) ==> |Seeds(temps, table, draws).0| == EligiblePairs(temps, table)
    ensures (forall n :: draws(n) <= SeedChance) ==> Seeds(temps, table, draws).0 == []
    ensures forall f :: f in Seeds(temps, table, draws).0 ==>
              f.y == 0.0 && f.species in table &&
              exists c :: 0 <= c < |temps| && f.x == c as real && InSeedBand(f.species, temps[c])
  {
    SeedScanIsLuckyPairs(temps, table, draws, 0, 0, 0, []);
    assert [] + Lucky(EligibleFrom(temps, table, 0, 0), draws, 0) == Lucky(EligibleFrom(temps, table, 0, 0), draws, 0);
    SeedScanDraws(temps, table, draws, 0, 0, 0, []);
    SeedScanByLuck(temps, table, draws, 0, 0, 0, []);
    SeedScanCountsHighDraws(temps, table, draws, 0, 0, 0, []);
    SeedScanOnlyInBand(temps, table, draws, 0, 0, 0, []);
    if |temps| > 0 {
      assert table[0..] == table && temps[1..] == temps[0 + 1..];
    }
  }

  /** A red flower seeded this tick stands on a cell whose temperature lies inside
      its survival band. */
  lemma SeededRedFlowersStartInSurvivalBand(temps: seq<real>, redWidth: real, draws: nat -> real)
    ensures forall f :: f in Seeds(temps, FlowerClasses(redWidth), draws).0 ==>
              exists c :: 0 <= c < |temps| && f.x == c as real &&
                f.species.minTemp < temps[c] < f.species.maxTemp
  {
    SeedsSummary(temps, FlowerClasses(redWidth), draws);
    FlowerClassesBands(redWidth);
  }
}
