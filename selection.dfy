/**
 * The pieces of truncation selection, as functions of the genome list and its
 * species: the adjusted fitness, the truncation of each species, the genomes the
 * erase step keeps, and the final truncation of the population.
 *
 * `pow` stands for single-precision `powf`; floating-point rounding is not modelled.
 */
module Selection {
  import opened Genes
  import opened Genomes
  import Sorting
  import opened Species

  // ---------------------------------------------------------------------------
  // Adjusted fitness

  /** Every species at positions `lo .. hi-1` contains index `i`. */
  predicate AllHold(sp: seq<seq<nat>>, i: nat, lo: nat, hi: nat)
    requires hi <= |sp|
  {
    forall q :: lo <= q < hi ==> i in sp[q]
  }

  /** The size of the first species, from position `j` on, that does NOT contain
      index `i`, or 0 when every one of them contains it. */
  function FirstOtherSize(sp: seq<seq<nat>>, i: nat, j: nat): nat
    requires j <= |sp|
    decreases |sp| - j
  {
    if j == |sp| then 0 else if i in sp[j] then FirstOtherSize(sp, i, j + 1) else |sp[j]|
  }

  /** `FirstOtherSize` is 0 when every species from `j` on holds `i`, and otherwise the
      size of the first one that does not. */
  lemma {:induction false} FirstOtherSizeFound(sp: seq<seq<nat>>, i: nat, j: nat)
    requires j <= |sp|
    ensures AllHold(sp, i, j, |sp|) ==> FirstOtherSize(sp, i, j) == 0
    ensures forall k :: j <= k < |sp| && i !in sp[k] && AllHold(sp, i, j, k) ==> FirstOtherSize(sp, i, j) == |sp[k]|
    decreases |sp| - j
  {
    if j == |sp| {
    } else if i in sp[j] {
      FirstOtherSizeFound(sp, i, j + 1);
      assert FirstOtherSize(sp, i, j) == FirstOtherSize(sp, i, j + 1);
      forall k | j <= k < |sp| && i !in sp[k] && AllHold(sp, i, j, k)
        ensures FirstOtherSize(sp, i, j) == |sp[k]|
      {
        assert k != j;
        assert AllHold(sp, i, j + 1, k);
      }
      if AllHold(sp, i, j, |sp|) {
        assert AllHold(sp, i, j + 1, |sp|);
      }
    } else {
      forall k | j < k <= |sp| ensures !AllHold(sp, i, j, k) {
        assert i !in sp[j];
      }
    }
  }

  /** On a partition the size used is never that of the species holding `i`: it is
      the first species' size, or the second's when `i` is in the first. */
  lemma FirstOtherOfPartition(sp: seq<seq<nat>>, n: nat, i: nat)
    requires Partition(sp, n) && i < n && |sp| > 0
    ensures FirstOtherSize(sp, i, 0) ==
      if i !in sp[0] then |sp[0]| else if |sp| > 1 then |sp[1]| else 0
  {
    FirstOtherSizeFound(sp, i, 0);
    if i in sp[0] && |sp| > 1 {
      assert i !in sp[1];
    }
  }

  /** The divisor of the adjusted fitness: species size floored at 20, to one power,
      times the age, to another. */
  function Divisor(n: nat, age: nat, pow: (real, real) -> real, sizePower: real, agePower: real): real {
    pow(Max(n, 20) as real, sizePower) * pow(age as real, agePower)
  }

  /** What every divisor needs to be a number: `pow` does not vanish on the values it is
      applied to. */
  ghost predicate PowNonZero(gs: seq<Genome>, pow: (real, real) -> real, sizePower: real, agePower: real) {
    (forall x: real :: x >= 20.0 ==> pow(x, sizePower) != 0.0) &&
    (forall k :: 0 <= k < |gs| ==> pow(gs[k].age as real, agePower) != 0.0)
  }

  lemma DivisorNonZero(gs: seq<Genome>, pow: (real, real) -> real, sizePower: real, agePower: real, n: nat, k: nat)
    requires PowNonZero(gs, pow, sizePower, agePower) && k < |gs|
    ensures Divisor(n, gs[k].age, pow, sizePower, agePower) != 0.0
  {
    var a, b := pow(Max(n, 20) as real, sizePower), pow(gs[k].age as real, agePower);
    assert a != 0.0 && b != 0.0;
  }

  /** The genome list once each genome's adjusted fitness is its fitness over its divisor. */
  function Adjusted(gs: seq<Genome>, sp: seq<seq<nat>>, pow: (real, real) -> real, sizePower: real, agePower: real): (r: seq<Genome>)
    requires PowNonZero(gs, pow, sizePower, agePower)
    ensures |r| == |gs|
  {
    seq(|gs|, k requires 0 <= k < |gs| =>
      DivisorNonZero(gs, pow, sizePower, agePower, FirstOtherSize(sp, k, 0), k);
      gs[k].(adjustedFitness := gs[k].fitness / Divisor(FirstOtherSize(sp, k, 0), gs[k].age, pow, sizePower, agePower)))
  }

  /** Only the adjusted fitness changes. */
  lemma AdjustedOnlyFitness(gs: seq<Genome>, sp: seq<seq<nat>>, pow: (real, real) -> real, sizePower: real, agePower: real, k: nat)
    requires PowNonZero(gs, pow, sizePower, agePower) && k < |gs|
    ensures Adjusted(gs, sp, pow, sizePower, agePower)[k] == gs[k].(adjustedFitness := Adjusted(gs, sp, pow, sizePower, agePower)[k].adjustedFitness)
    ensures Adjusted(gs, sp, pow, sizePower, agePower)[k].adjustedFitness * Divisor(FirstOtherSize(sp, k, 0), gs[k].age, pow, sizePower, agePower) == gs[k].fitness
  {
    DivisorNonZero(gs, pow, sizePower, agePower, FirstOtherSize(sp, k, 0), k);
  }

  // ---------------------------------------------------------------------------
  // Truncation

  /** `(size_t)(to_kill * to_kill * n)`: the number of entries a truncation keeps. */
  function KeepCount(toKill: real, n: nat): (c: nat)
    ensures toKill * toKill <= 1.0 ==> c <= n
  {
    var x := toKill * toKill * n as real;
    SquareScale(toKill, n);
    x.Floor
  }

  lemma SquareScale(t: real, n: nat)
    ensures 0.0 <= t * t * n as real
    ensures t * t <= 1.0 ==> t * t * n as real <= n as real
  {
    assert 0.0 <= t * t;
    if t * t <= 1.0 {
      assert (t * t) * n as real <= 1.0 * n as real;
    }
  }

  /** With the default `to_kill` of one half a truncation keeps a quarter, rounded down. */
  lemma KeepCountHalf(n: nat)
    ensures KeepCount(0.5, n) == n / 4
  {
    var q, r := n / 4, n % 4;
    assert n == 4 * q + r;
    assert 0.5 * 0.5 * n as real == q as real + r as real / 4.0;
    assert (q as real + r as real / 4.0).Floor == q;
  }

  /** The adjusted fitness of the genome a species entry names (an entry that names no
      genome does not occur in a partition). */
  function FitnessOf(gs: seq<Genome>): nat -> real {
    (m: nat) => if m < |gs| then gs[m].adjustedFitness else 0.0
  }

  /** A species list sorted by decreasing adjusted fitness and resized to its keep count
      (new places, when it grows, hold index 0). */
  function Truncate(l: seq<nat>, gs: seq<Genome>, toKill: real): (r: seq<nat>)
    ensures |r| == KeepCount(toKill, |l|)
  {
    Sorting.Resize(Sorting.SortDescending(l, FitnessOf(gs)), KeepCount(toKill, |l|), 0)
  }

  /** A truncation that shrinks keeps the fittest entries of the list, in order: it is a
      prefix of an ordering of the whole list by decreasing adjusted fitness. */
  lemma TruncateKeepsFittest(l: seq<nat>, gs: seq<Genome>, toKill: real)
    requires toKill * toKill <= 1.0
    ensures exists sorted: seq<nat> ::
              |sorted| == |l| && multiset(sorted) == multiset(l) && Sorting.Descending(sorted, FitnessOf(gs)) &&
              Truncate(l, gs, toKill) == sorted[..KeepCount(toKill, |l|)]
  {
    var sorted := Sorting.SortDescending(l, FitnessOf(gs));
    assert Truncate(l, gs, toKill) == sorted[..KeepCount(toKill, |l|)];
  }

  /** Every species truncated. */
  function TruncateAll(sp: seq<seq<nat>>, gs: seq<Genome>, toKill: real): (r: seq<seq<nat>>)
    ensures |r| == |sp|
  {
    seq(|sp|, k requires 0 <= k < |sp| => Truncate(sp[k], gs, toKill))
  }

  // ---------------------------------------------------------------------------
  // The erase step

  /** The indices below `n` that no list holds, in ascending order. */
  function Kept(n: nat, sp: seq<seq<nat>>): (ks: seq<nat>)
    ensures StrictlyAscending(ks)
    ensures forall k :: 0 <= k < |ks| ==> ks[k] < n
    ensures forall m: nat :: m in ks <==> m < n && !Listed(sp, m)
  {
    if n == 0 then [] else Kept(n - 1, sp) + if Listed(sp, n - 1) then [] else [n - 1]
  }

  /** The genomes whose index no list holds, in their original order. */
  function Survivors(gs: seq<Genome>, sp: seq<seq<nat>>): (r: seq<Genome>)
    ensures |r| == |Kept(|gs|, sp)|
  {
    Gather(gs, Kept(|gs|, sp))
  }

  /** The genomes at the indices `ks`, in that order. */
  function Gather(gs: seq<Genome>, ks: seq<nat>): (r: seq<Genome>)
    requires forall k :: 0 <= k < |ks| ==> ks[k] < |gs|
    ensures |r| == |ks|
  {
    seq(|ks|, j requires 0 <= j < |ks| => gs[ks[j]])
  }

  /** Gathering indices below `m` does not see genome `m`; gathering `m` as well adds it. */
  lemma GatherExtend(gs: seq<Genome>, ks: seq<nat>, m: nat)
    requires m < |gs| && forall k :: 0 <= k < |ks| ==> ks[k] < m
    ensures Gather(gs[..m + 1], ks) == Gather(gs[..m], ks)
    ensures Gather(gs[..m + 1], ks + [m]) == Gather(gs[..m], ks) + [gs[m]]
  {
    var ks' := ks + [m];
    var a, b := Gather(gs[..m + 1], ks'), Gather(gs[..m], ks) + [gs[m]];
    forall j | 0 <= j < |a| ensures a[j] == b[j] {
      if j < |ks| {
        assert ks'[j] == ks[j];
      }
    }
  }

  /** The survivors are the genomes at exactly the indices no truncated species retained. */
  lemma SurvivorsExact(gs: seq<Genome>, sp: seq<seq<nat>>, g: Genome)
    ensures g in Survivors(gs, sp) <==> exists m :: 0 <= m < |gs| && !Listed(sp, m) && gs[m] == g
  {
    var ks := Kept(|gs|, sp);
    var r := Survivors(gs, sp);
    if g in r {
      var j :| 0 <= j < |r| && r[j] == g;
      assert ks[j] in ks;
    }
    if exists m :: 0 <= m < |gs| && !Listed(sp, m) && gs[m] == g {
      var m :| 0 <= m < |gs| && !Listed(sp, m) && gs[m] == g;
      assert m in ks;
      var j :| 0 <= j < |ks| && ks[j] == m;
      assert r[j] == g;
    }
  }

  /** The erase loop's step: index `m` adds its genome unless some list holds it. */
  lemma SurvivorsStep(gs: seq<Genome>, sp: seq<seq<nat>>, m: nat)
    requires m < |gs|
    ensures Survivors(gs[..m + 1], sp) == Survivors(gs[..m], sp) + if Listed(sp, m) then [] else [gs[m]]
  {
    assert |gs[..m]| == m && |gs[..m + 1]| == m + 1;
    var ks := Kept(m, sp);
    assert Survivors(gs[..m], sp) == Gather(gs[..m], ks);
    GatherExtend(gs, ks, m);
    if Listed(sp, m) {
      assert Kept(m + 1, sp) == ks;
    } else {
      assert Kept(m + 1, sp) == ks + [m];
    }
  }

  /** The key the final sort of `selection` compares genomes by. */
  function AdjustedFitness(g: Genome): real {
    g.adjustedFitness
  }

  /** The genome list `selection` leaves: the survivors sorted by decreasing adjusted
      fitness and resized to their keep count, new places holding default genomes. */
  function Finish(survivors: seq<Genome>, toKill: real): (r: seq<Genome>)
    ensures |r| == KeepCount(toKill, |survivors|)
  {
    Sorting.Resize(Sorting.SortDescending(survivors, AdjustedFitness), KeepCount(toKill, |survivors|), Fresh)
  }

  /** A shrinking final truncation keeps the fittest survivors, fittest first: it is a
      prefix of an ordering of all survivors by decreasing adjusted fitness, so no
      survivor left out is fitter than the last one kept. */
  lemma FinishKeepsFittest(survivors: seq<Genome>, toKill: real)
    requires toKill * toKill <= 1.0
    ensures Sorting.Descending(Finish(survivors, toKill), AdjustedFitness)
    ensures multiset(Finish(survivors, toKill)) <= multiset(survivors)
    ensures forall g :: g in Finish(survivors, toKill) ==> g in survivors
    ensures exists sorted: seq<Genome> ::
              |sorted| == |survivors| && multiset(sorted) == multiset(survivors) && Sorting.Descending(sorted, AdjustedFitness) &&
              Finish(survivors, toKill) == sorted[..KeepCount(toKill, |survivors|)]
    ensures var kept := Finish(survivors, toKill);
      0 < |kept| ==> forall g :: g in multiset(survivors) - multiset(kept) ==> g.adjustedFitness <= kept[|kept| - 1].adjustedFitness
  {
    var sorted := Sorting.SortDescending(survivors, AdjustedFitness);
    var c := KeepCount(toKill, |survivors|);
    assert c <= |sorted|;
    Sorting.ResizeShrinks(sorted, c, Fresh);
    Sorting.PrefixOfDescending(sorted, AdjustedFitness, c);
    var kept := Finish(survivors, toKill);
    forall g | g in kept ensures g in survivors {
      assert g in multiset(sorted);
    }
    assert kept == sorted[..c];
    if 0 < c {
      Sorting.PrefixBoundsRest(sorted, AdjustedFitness, c);
    }
  }

  /**
   * The whole of `selection` after the species are formed: adjusted fitness from the
   * species `sp`, each species truncated, the genomes some truncated species still
   * holds erased, and the rest truncated.
   */
  function Select(gs: seq<Genome>, sp: seq<seq<nat>>, pow: (real, real) -> real, sizePower: real, agePower: real,
                  toKill: real): (r: seq<Genome>)
    requires PowNonZero(gs, pow, sizePower, agePower)
  {
    var adjusted := Adjusted(gs, sp, pow, sizePower, agePower);
    Finish(Survivors(adjusted, TruncateAll(sp, adjusted, toKill)), toKill)
  }

  /** What selection leaves when `to_kill` is at most 1: fittest first, and each genome
      one whose original index no truncated species retains, with adjusted fitness set. */
  lemma SelectOutcome(gs: seq<Genome>, sp: seq<seq<nat>>, pow: (real, real) -> real, sizePower: real, agePower: real,
                      toKill: real, g: Genome)
    requires PowNonZero(gs, pow, sizePower, agePower) && toKill * toKill <= 1.0
    requires g in Select(gs, sp, pow, sizePower, agePower, toKill)
    ensures var adjusted := Adjusted(gs, sp, pow, sizePower, agePower);
      exists m :: 0 <= m < |gs| && !Listed(TruncateAll(sp, adjusted, toKill), m) && g == adjusted[m]
  {
    var adjusted := Adjusted(gs, sp, pow, sizePower, agePower);
    var survivors := Survivors(adjusted, TruncateAll(sp, adjusted, toKill));
    FinishKeepsFittest(survivors, toKill);
    SurvivorsExact(adjusted, TruncateAll(sp, adjusted, toKill), g);
  }
}
