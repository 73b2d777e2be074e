/** The population: its genomes, their species, and the generation cycle. */
module Populations {
  import opened Genes
  import opened Genomes
  import opened Species
  import opened Selection
  import opened Reproduction

  /** The members of the population that no operation changes. */
  datatype Settings = Settings(
    populationSize: nat,
    specieTreshold: real,
    mutationAddNode: real,
    mutationDelNode: real,
    mutationAddConnection: real,
    mutationDelConnection: real,
    mutationWeight: real,
    mutationWeightStep: real,
    mutationActivation: real,
    speciationSizeInversePower: real,
    ageInversePower: real,
    toKill: real)

  /** A genome fit to breed from: well formed under the counter `next`, following the
      registry `reg`, and viable. */
  ghost predicate Member(g: Genome, next: nat, reg: map<nat, (nat, nat)>) {
    WellFormed(g, next) && Conforms(g.connectionGenes, reg) && Viable(g)
  }

  lemma MemberGrow(g: Genome, next: nat, reg: map<nat, (nat, nat)>, next': nat, reg': map<nat, (nat, nat)>)
    requires Member(g, next, reg) && next <= next'
    requires forall x :: x in reg ==> x in reg' && reg'[x] == reg[x]
    ensures Member(g, next', reg')
  {
    BelowMonotone(g.connectionGenes, next, next');
    ConformsGrow(g.connectionGenes, reg, reg');
  }

  /** The sum of the adjusted fitness of `gs`. */
  function FitnessSum(gs: seq<Genome>): real {
    if gs == [] then 0.0 else FitnessSum(gs[..|gs| - 1]) + gs[|gs| - 1].adjustedFitness
  }

  /** Whether some species holds index `i`: the nested search of the erase predicate. */
  method IsRetained(sp: seq<seq<nat>>, i: nat) returns (flag: bool)
    ensures flag == Listed(sp, i)
  {
    for k := 0 to |sp|
      invariant forall q :: 0 <= q < k ==> i !in sp[q]
    {
      for p := 0 to |sp[k]|
        invariant forall q :: 0 <= q < p ==> sp[k][q] != i
      {
        if i == sp[k][p] {
          return true;
        }
      }
    }
    return false;
  }

  /** The two loops of `generate_species`: each genome, in order, joins the first
      representative closer to it than `t`, or becomes a representative with a species
      of its own. */
  method AssignAll(gs: seq<Genome>, reps0: seq<Genome>, t: real) returns (sp: seq<seq<nat>>, reps: seq<Genome>)
    ensures (sp, reps) == Assigned(gs, reps0, t)
  {
    sp, reps := Empties(|reps0|), reps0;
    for i := 0 to |gs|
      invariant (sp, reps) == Assign(gs, Empties(|reps0|), reps0, t, i)
    {
      var k := ScanRepresentatives(gs[i], reps, t);
      if k < |reps| {
        sp := sp[k := sp[k] + [i]];
      } else {
        reps := reps + [gs[i]];
        sp := sp + [[i]];
      }
    }
  }

  /** The inner loop of the assignment: the first representative `g` is closer to than
      the threshold, or `|reps|` when there is none. */
  method ScanRepresentatives(g: Genome, reps: seq<Genome>, t: real) returns (k: nat)
    ensures k == FirstClose(g, reps, t, 0)
  {
    k := 0;
    while k < |reps|
      invariant 0 <= k <= |reps|
      invariant FirstClose(g, reps, t, k) == FirstClose(g, reps, t, 0)
    {
      var d := SpeciationCoeff(g, reps[k]);
      if Below(d, t) {
        return;
      }
      k := k + 1;
    }
  }

  /** The last loop of `generate_species`: from the back, every empty species is
      replaced by the last one, and its representative likewise. */
  method RemoveEmpty(sp0: seq<seq<nat>>, reps0: seq<Genome>) returns (sp: seq<seq<nat>>, reps: seq<Genome>)
    requires |sp0| == |reps0|
    ensures (sp, reps) == Prune(sp0, reps0, |sp0| - 1)
  {
    sp, reps := sp0, reps0;
    var i := |sp|;
    while i > 0
      invariant 0 <= i <= |sp| == |reps|
      invariant Prune(sp, reps, i - 1) == Prune(sp0, reps0, |sp0| - 1)
    {
      i := i - 1;
      if sp[i] == [] {
        sp := sp[i := sp[|sp| - 1]];
        sp := sp[..|sp| - 1];
        reps := reps[i := reps[|reps| - 1]];
        reps := reps[..|reps| - 1];
      }
    }
  }

  /** The species-size search of `selection`: the size of the first species that does
      not hold `i`, or 0 when every species holds it. */
  method FirstOther(sp: seq<seq<nat>>, i: nat) returns (n: nat)
    ensures n == FirstOtherSize(sp, i, 0)
  {
    n := 0;
    var j := 0;
    while j < |sp|
      invariant 0 <= j <= |sp| && n == 0
      invariant FirstOtherSize(sp, i, j) == FirstOtherSize(sp, i, 0)
    {
      if i in sp[j] {
        j := j + 1;
        continue;
      }
      n := |sp[j]|;
      break;
    }
  }

  /** The adjusted-fitness loop of `selection`, with `pow` for the power function. */
  method AdjustAll(gs: seq<Genome>, sp: seq<seq<nat>>, pow: (real, real) -> real, sizePower: real, agePower: real)
    returns (r: seq<Genome>)
    requires PowNonZero(gs, pow, sizePower, agePower)
    ensures r == Adjusted(gs, sp, pow, sizePower, agePower)
  {
    ghost var target := Adjusted(gs, sp, pow, sizePower, agePower);
    r := gs;
    for i := 0 to |gs|
      invariant |r| == |gs|
      invariant forall k :: 0 <= k < i ==> r[k] == target[k]
      invariant forall k :: i <= k < |r| ==> r[k] == gs[k]
    {
      var n := FirstOther(sp, i);
      DivisorNonZero(gs, pow, sizePower, agePower, n, i);
      var divisor: real := Max(n, 20) as real;
      divisor := pow(divisor, sizePower);
      divisor := divisor * pow(r[i].age as real, agePower);
      assert divisor == Divisor(FirstOtherSize(sp, i, 0), gs[i].age, pow, sizePower, agePower);
      r := r[i := r[i].(adjustedFitness := r[i].fitness / divisor)];
      assert r[i] == target[i];
    }
    assert r == target;
  }

  /** The species loop of `selection`: each species keeps its fittest indices. */
  method TruncateEach(sp: seq<seq<nat>>, gs: seq<Genome>, toKill: real) returns (r: seq<seq<nat>>)
    ensures r == TruncateAll(sp, gs, toKill)
  {
    r := sp;
    for k := 0 to |sp|
      invariant |r| == |sp|
      invariant forall q :: 0 <= q < k ==> r[q] == Truncate(sp[q], gs, toKill)
      invariant forall q :: k <= q < |r| ==> r[q] == sp[q]
    {
      r := r[k := Truncate(r[k], gs, toKill)];
    }
  }

  /** The erase step of `selection`: the genomes whose index no species holds, in order. */
  method Erase(gs: seq<Genome>, sp: seq<seq<nat>>) returns (r: seq<Genome>)
    ensures r == Survivors(gs, sp)
  {
    r := [];
    for m := 0 to |gs|
      invariant r == Survivors(gs[..m], sp)
    {
      var flag := IsRetained(sp, m);
      SurvivorsStep(gs, sp, m);
      if !flag {
        r := r + [gs[m]];
      }
    }
    assert gs[..|gs|] == gs;
  }

  /** The body of `generate_species` on values: assignment, then removal of the empty
      species; every genome index ends in exactly one species and none is empty. */
  method FormSpecies(gs: seq<Genome>, reps0: seq<Genome>, t: real) returns (sp: seq<seq<nat>>, reps: seq<Genome>)
    ensures var a := Assigned(gs, reps0, t); (sp, reps) == Prune(a.0, a.1, |a.0| - 1)
    ensures Partition(sp, |gs|) && |sp| == |reps| && NoneEmpty(sp)
  {
    var placed, candidates := AssignAll(gs, reps0, t);
    sp, reps := RemoveEmpty(placed, candidates);
    SpeciesOutcome(gs, reps0, t);
  }

  /** `selection` once the species `sp` are formed: adjusted fitness, each species
      truncated, the genomes a truncated species still holds erased, the rest truncated. */
  method Cull(gs: seq<Genome>, sp: seq<seq<nat>>, pow: (real, real) -> real, sizePower: real, agePower: real, toKill: real)
    returns (r: seq<Genome>, truncated: seq<seq<nat>>)
    requires PowNonZero(gs, pow, sizePower, agePower)
    ensures truncated == TruncateAll(sp, Adjusted(gs, sp, pow, sizePower, agePower), toKill)
    ensures r == Selection.Select(gs, sp, pow, sizePower, agePower, toKill)
  {
    var adjusted := AdjustAll(gs, sp, pow, sizePower, agePower);
    truncated := TruncateEach(sp, adjusted, toKill);
    var kept := Erase(adjusted, truncated);
    r := Finish(kept, toKill);
  }

  /** Every genome one generation older, nothing else changed. */
  method AgeAll(gs: seq<Genome>) returns (r: seq<Genome>)
    ensures |r| == |gs|
    ensures forall k :: 0 <= k < |gs| ==> r[k] == gs[k].(age := gs[k].age + 1)
  {
    r := gs;
    for k := 0 to |gs|
      invariant |r| == |gs|
      invariant forall q :: 0 <= q < k ==> r[q] == gs[q].(age := gs[q].age + 1)
      invariant forall q :: k <= q < |r| ==> r[q] == gs[q]
    {
      r := r[k := r[k].(age := r[k].age + 1)];
    }
  }

  /**
   * The birth loop of `reproduction`: children are added until there are `size`
   * genomes. Parents are picked by the two-residue roulette over the genomes present
   * at the start, the one of lower adjusted fitness goes first into the crossover.
   * The ghost `parents` lists, child by child, the two positions picked.
   */
  method Refill(gs: seq<Genome>, size: nat, rates: Rates, rng: Rng, innov: nat, ghost reg: map<nat, (nat, nat)>)
    returns (r: seq<Genome>, innov': nat, ghost reg': map<nat, (nat, nat)>, ghost parents: seq<(nat, nat)>)
    requires 0 < |gs| <= size && rng.Valid()
    requires forall k :: 0 <= k < |gs| ==> Member(gs[k], innov, reg)
    requires RegistryBelow(reg, innov)
    modifies rng
    ensures rng.Valid()
    ensures |r| == size && r[..|gs|] == gs
    ensures forall k :: |gs| <= k < |r| ==> r[k].age == 0
    ensures |parents| == size - |gs|
    ensures forall k :: 0 <= k < |parents| ==> ChildOf(gs, parents[k], r[|gs| + k])
    ensures innov <= innov' && RegistryBelow(reg', innov')
    ensures forall x :: x in reg ==> x in reg' && reg'[x] == reg[x]
    ensures forall k :: 0 <= k < |r| ==> Member(r[k], innov', reg')
    ensures forall k :: 0 <= k < |gs| ==> Viable(gs[k])
    ensures r[|gs|..] == Born(gs, rates, rng, innov, old(rng.calls), size - |gs|).0
    ensures innov' == Born(gs, rates, rng, innov, old(rng.calls), size - |gs|).1
    ensures rng.calls == Born(gs, rates, rng, innov, old(rng.calls), size - |gs|).2
  {
    ghost var at := rng.calls;
    var fitnessSum := SumFitness(gs);
    var afs := Fitnesses(gs);
    r, innov', reg', parents := gs, innov, reg, [];
    while |r| < size
      invariant |gs| <= |r| <= size && r[..|gs|] == gs
      invariant |parents| == |r| - |gs| && rng.Valid()
      invariant innov <= innov' && RegistryBelow(reg', innov')
      invariant forall x :: x in reg ==> x in reg' && reg'[x] == reg[x]
      invariant forall k :: 0 <= k < |r| ==> Member(r[k], innov', reg')
      invariant forall k :: |gs| <= k < |r| ==> r[k].age == 0
      invariant forall k :: 0 <= k < |parents| ==> ChildOf(gs, parents[k], r[|gs| + k])
      invariant forall k :: 0 <= k < |gs| ==> Viable(gs[k])
      invariant r[|gs|..] == Born(gs, rates, rng, innov, at, |r| - |gs|).0
      invariant innov' == Born(gs, rates, rng, innov, at, |r| - |gs|).1
      invariant rng.calls == Born(gs, rates, rng, innov, at, |r| - |gs|).2
    {
      ghost var r0, innov0, calls0 := r, innov', rng.calls;
      r, parents, innov', reg' := Grow(gs, afs, fitnessSum, rates, rng, r, parents, innov', reg');
      AppendedTail(r0, Child(gs, afs, fitnessSum, rates, rng, innov0, calls0).0, |gs|);
      BornStep(gs, rates, rng, innov, at, |r0| - |gs|, innov0, calls0);
    }
  }

  /** The birth loop, then the ageing loop of `reproduction`, on the genomes `gs`. */
  method Renewed(gs: seq<Genome>, size: nat, rates: Rates, rng: Rng, innov: nat, ghost reg: map<nat, (nat, nat)>)
    returns (r: seq<Genome>, innov': nat, ghost reg': map<nat, (nat, nat)>, ghost parents: seq<(nat, nat)>)
    requires 0 < |gs| <= size && rng.Valid()
    requires forall k :: 0 <= k < |gs| ==> Member(gs[k], innov, reg)
    requires RegistryBelow(reg, innov)
    modifies rng
    ensures |r| == size && rng.Valid()
    ensures forall k :: 0 <= k < |gs| ==> r[k] == gs[k].(age := gs[k].age + 1)
    ensures forall k :: |gs| <= k < |r| ==> r[k].age == 1
    ensures |parents| == size - |gs|
    ensures forall k :: 0 <= k < |parents| ==> ChildOf(gs, parents[k], r[|gs| + k])
    ensures innov <= innov' && RegistryBelow(reg', innov')
    ensures forall x :: x in reg ==> x in reg' && reg'[x] == reg[x]
    ensures forall k :: 0 <= k < |r| ==> Member(r[k], innov', reg')
    ensures forall k :: 0 <= k < |gs| ==> Viable(gs[k])
    ensures forall k :: |gs| <= k < |r| ==> r[k] == Born(gs, rates, rng, innov, old(rng.calls), size - |gs|).0[k - |gs|].(age := 1)
    ensures innov' == Born(gs, rates, rng, innov, old(rng.calls), size - |gs|).1
    ensures rng.calls == Born(gs, rates, rng, innov, old(rng.calls), size - |gs|).2
  {
    var born;
    born, innov', reg', parents := Refill(gs, size, rates, rng, innov, reg);
    r := AgeAll(born);
    AgedTail(born, r, |gs|);
  }

  /** After the ageing, the genomes past `i` are those of `born[i..]`, each a year old. */
  lemma AgedTail(born: seq<Genome>, aged: seq<Genome>, i: nat)
    requires i <= |born| == |aged|
    requires forall k :: i <= k < |born| ==> born[k].age == 0
    requires forall k :: 0 <= k < |born| ==> aged[k] == born[k].(age := born[k].age + 1)
    ensures forall k :: i <= k < |aged| ==> aged[k] == born[i..][k - i].(age := 1)
  {
  }

  /** Appending to a sequence appends to each of its tails. */
  lemma AppendedTail<T>(s: seq<T>, x: T, i: nat)
    requires i <= |s|
    ensures (s + [x])[i..] == s[i..] + [x]
  {
  }

  /** `Born` of one more child: the first `n` children, then the child bred where they left
      the counter and the tape. */
  lemma BornStep(gs: seq<Genome>, rates: Rates, rng: Rng, innov: nat, at: nat, n: nat, innov0: nat, calls0: nat)
    requires 0 < |gs| && forall k :: 0 <= k < |gs| ==> Viable(gs[k])
    requires innov0 == Born(gs, rates, rng, innov, at, n).1 && calls0 == Born(gs, rates, rng, innov, at, n).2
    ensures Born(gs, rates, rng, innov, at, n + 1).0 ==
            Born(gs, rates, rng, innov, at, n).0 + [Child(gs, Fitnesses(gs), FitnessSum(gs), rates, rng, innov0, calls0).0]
    ensures Born(gs, rates, rng, innov, at, n + 1).1 == Child(gs, Fitnesses(gs), FitnessSum(gs), rates, rng, innov0, calls0).1
    ensures Born(gs, rates, rng, innov, at, n + 1).2 == Child(gs, Fitnesses(gs), FitnessSum(gs), rates, rng, innov0, calls0).2
  {
  }

  /** One child of the birth loop, added after the genomes `r` with its parents' positions
      added to `parents`: the loop's invariants are kept. */
  method Grow(gs: seq<Genome>, afs: seq<real>, fitnessSum: real, rates: Rates, rng: Rng,
              r: seq<Genome>, ghost parents: seq<(nat, nat)>, innov: nat, ghost reg: map<nat, (nat, nat)>)
    returns (r': seq<Genome>, ghost parents': seq<(nat, nat)>, innov': nat, ghost reg': map<nat, (nat, nat)>)
    requires 0 < |gs| == |afs| <= |r| && r[..|gs|] == gs && rng.Valid()
    requires forall k :: 0 <= k < |r| ==> Member(r[k], innov, reg)
    requires RegistryBelow(reg, innov)
    requires |parents| == |r| - |gs|
    requires forall k :: 0 <= k < |parents| ==> ChildOf(gs, parents[k], r[|gs| + k])
    requires forall k :: |gs| <= k < |r| ==> r[k].age == 0
    modifies rng
    ensures rng.Valid() && |r'| == |r| + 1 && r'[..|r|] == r && r'[|r|].age == 0
    ensures r'[..|gs|] == gs && forall k :: |gs| <= k < |r'| ==> r'[k].age == 0
    ensures forall k :: 0 <= k < |gs| ==> Viable(gs[k])
    ensures r' == r + [Child(gs, afs, fitnessSum, rates, rng, innov, old(rng.calls)).0]
    ensures innov' == Child(gs, afs, fitnessSum, rates, rng, innov, old(rng.calls)).1
    ensures rng.calls == Child(gs, afs, fitnessSum, rates, rng, innov, old(rng.calls)).2
    ensures |parents'| == |r'| - |gs|
    ensures forall k :: 0 <= k < |parents'| ==> ChildOf(gs, parents'[k], r'[|gs| + k])
    ensures innov <= innov' && RegistryBelow(reg', innov')
    ensures forall x :: x in reg ==> x in reg' && reg'[x] == reg[x]
    ensures forall k :: 0 <= k < |r'| ==> Member(r'[k], innov', reg')
  {
    forall k | 0 <= k < |gs| ensures Member(gs[k], innov, reg) {
      assert gs[k] == r[k];
    }
    var child, p1, p2;
    child, p1, p2, innov', reg' := Birth(gs, afs, fitnessSum, rates, rng, innov, reg);
    forall k | 0 <= k < |r| ensures Member(r[k], innov', reg') {
      MemberGrow(r[k], innov, reg, innov', reg');
    }
    r' := r + [child];
    parents' := parents + [(p1, p2)];
    forall k | 0 <= k < |parents'| ensures ChildOf(gs, parents'[k], r'[|gs| + k]) {
      if k < |parents| {
        assert parents'[k] == parents[k] && r'[|gs| + k] == r[|gs| + k];
      }
    }
  }

  /** The two roulette picks over `afs` for the uniform draws at tape positions `at` and
      `at + 1`, each scaled by `fitnessSum`. */
  function Picked(afs: seq<real>, fitnessSum: real, rng: Rng, at: nat): (nat, nat) {
    Spin(afs, 0, Scaled(rng, at, fitnessSum), Scaled(rng, at + 1, fitnessSum), 0, 0)
  }

  /** The uniform draw at tape position `at`, scaled by `fitnessSum`. */
  function Scaled(rng: Rng, at: nat, fitnessSum: real): real {
    rng.uniform(at) * fitnessSum
  }

  /** The adjusted fitness of each genome, in order: the list the roulette walks. */
  function Fitnesses(gs: seq<Genome>): seq<real> {
    seq(|gs|, k requires 0 <= k < |gs| => gs[k].adjustedFitness)
  }

  /** The two parents of one birth from tape position `at`: the roulette picks, swapped
      when the first is fitter than the second. */
  function Parents(gs: seq<Genome>, afs: seq<real>, fitnessSum: real, rng: Rng, at: nat): (ps: (nat, nat))
    requires 0 < |gs| == |afs|
    ensures ps.0 < |gs| && ps.1 < |gs|
  {
    SpinInRange(afs, 0, Scaled(rng, at, fitnessSum), Scaled(rng, at + 1, fitnessSum), 0, 0);
    var p := Picked(afs, fitnessSum, rng, at);
    if gs[p.0].adjustedFitness > gs[p.1].adjustedFitness then (p.1, p.0) else p
  }

  /** One birth from counter `innov` and tape position `at`: the child bred from the
      parents of the two draws at `at`, with the draws after those two. */
  function Child(gs: seq<Genome>, afs: seq<real>, fitnessSum: real, rates: Rates, rng: Rng, innov: nat, at: nat): (r: (Genome, nat, nat))
    requires 0 < |gs| == |afs| && forall k :: 0 <= k < |gs| ==> Viable(gs[k])
    ensures innov <= r.1 <= innov + 3
  {
    var ps := Parents(gs, afs, fitnessSum, rng, at);
    Bred(gs[ps.0], gs[ps.1], rates, rng, innov, at + 2)
  }

  /**
   * The first `n` children of the birth loop from counter `innov` and tape position
   * `at`, with the counter and tape position they leave: each child is born where the
   * previous one left counter and tape.
   */
  function Born(gs: seq<Genome>, rates: Rates, rng: Rng, innov: nat, at: nat, n: nat): (r: (seq<Genome>, nat, nat))
    requires 0 < |gs| && forall k :: 0 <= k < |gs| ==> Viable(gs[k])
    ensures |r.0| == n
    decreases n, 0
  {
    if n == 0 then ([], innov, at)
    else
      var child := ChildAt(gs, rates, rng, innov, at, n - 1);
      (Born(gs, rates, rng, innov, at, n - 1).0 + [child.0], child.1, child.2)
  }

  /** Child `k` of the birth loop, with the counter and tape position it leaves: the
      child born where the first `k` children left counter and tape. */
  function ChildAt(gs: seq<Genome>, rates: Rates, rng: Rng, innov: nat, at: nat, k: nat): (r: (Genome, nat, nat))
    requires 0 < |gs| && forall q :: 0 <= q < |gs| ==> Viable(gs[q])
    ensures Born(gs, rates, rng, innov, at, k).1 <= r.1 <= Born(gs, rates, rng, innov, at, k).1 + 3
    decreases k, 1
  {
    var front := Born(gs, rates, rng, innov, at, k);
    Child(gs, Fitnesses(gs), FitnessSum(gs), rates, rng, front.1, front.2)
  }

  /** The two rolls of the roulette over `afs`, scaled by `fitnessSum`, with the parent
      of lower adjusted fitness first. */
  method PickParents(gs: seq<Genome>, afs: seq<real>, fitnessSum: real, rng: Rng) returns (p1: nat, p2: nat)
    requires 0 < |gs| == |afs| && rng.Valid()
    modifies rng
    ensures rng.Valid() && rng.calls == old(rng.calls) + 2 && p1 < |gs| && p2 < |gs|
    ensures var at := old(rng.calls);
      (p1 == Picked(afs, fitnessSum, rng, at).0 && p2 == Picked(afs, fitnessSum, rng, at).1 && gs[p1].adjustedFitness <= gs[p2].adjustedFitness) ||
      (p2 == Picked(afs, fitnessSum, rng, at).0 && p1 == Picked(afs, fitnessSum, rng, at).1 && gs[p2].adjustedFitness > gs[p1].adjustedFitness)
    ensures p1 == Parents(gs, afs, fitnessSum, rng, old(rng.calls)).0 && p2 == Parents(gs, afs, fitnessSum, rng, old(rng.calls)).1
  {
    ghost var at := rng.calls;
    var u1 := rng.Randomf();
    var u2 := rng.Randomf();
    var r1, r2 := u1 * fitnessSum, u2 * fitnessSum;
    assert r1 == Scaled(rng, at, fitnessSum) && r2 == Scaled(rng, at + 1, fitnessSum);
    p1, p2 := Roulette(afs, r1, r2);
    assert p1 == Picked(afs, fitnessSum, rng, at).0 && p2 == Picked(afs, fitnessSum, rng, at).1;
    if gs[p1].adjustedFitness > gs[p2].adjustedFitness {
      p1, p2 := p2, p1;
    }
  }

  /** One pass of the birth loop: the two parents picked, and their child bred and mutated
      from the tape position after the two roulette draws. */
  method Birth(gs: seq<Genome>, afs: seq<real>, fitnessSum: real, rates: Rates, rng: Rng, innov: nat,
               ghost reg: map<nat, (nat, nat)>)
    returns (child: Genome, p1: nat, p2: nat, innov': nat, ghost reg': map<nat, (nat, nat)>)
    requires 0 < |gs| == |afs| && rng.Valid()
    requires forall k :: 0 <= k < |gs| ==> Member(gs[k], innov, reg)
    requires RegistryBelow(reg, innov)
    modifies rng
    ensures forall k :: 0 <= k < |gs| ==> Viable(gs[k])
    ensures rng.Valid() && child.age == 0 && ChildOf(gs, (p1, p2), child)
    ensures var at := old(rng.calls);
      (p1 == Picked(afs, fitnessSum, rng, at).0 && p2 == Picked(afs, fitnessSum, rng, at).1 && gs[p1].adjustedFitness <= gs[p2].adjustedFitness) ||
      (p2 == Picked(afs, fitnessSum, rng, at).0 && p1 == Picked(afs, fitnessSum, rng, at).1 && gs[p2].adjustedFitness > gs[p1].adjustedFitness)
    ensures Viable(gs[p1]) && var r := Bred(gs[p1], gs[p2], rates, rng, innov, old(rng.calls) + 2);
      child == r.0 && innov' == r.1 && rng.calls == r.2
    ensures p1 == Parents(gs, afs, fitnessSum, rng, old(rng.calls)).0 && p2 == Parents(gs, afs, fitnessSum, rng, old(rng.calls)).1
    ensures child == Child(gs, afs, fitnessSum, rates, rng, innov, old(rng.calls)).0
    ensures innov' == Child(gs, afs, fitnessSum, rates, rng, innov, old(rng.calls)).1
    ensures rng.calls == Child(gs, afs, fitnessSum, rates, rng, innov, old(rng.calls)).2
    ensures innov <= innov' && RegistryBelow(reg', innov') && Member(child, innov', reg')
    ensures forall x :: x in reg ==> x in reg' && reg'[x] == reg[x]
  {
    ghost var at := rng.calls;
    p1, p2 := PickParents(gs, afs, fitnessSum, rng);
    assert Member(gs[p1], innov, reg) && Member(gs[p2], innov, reg);
    child, innov', reg' := Breed(gs[p1], gs[p2], rates, rng, innov, reg);
    ChildIsBred(gs, afs, fitnessSum, rates, rng, innov, at, p1, p2);
  }

  /** Once the parents and the tape position after their draws are named, `Child` is `Bred` of them. */
  lemma ChildIsBred(gs: seq<Genome>, afs: seq<real>, fitnessSum: real, rates: Rates, rng: Rng, innov: nat, at: nat,
                    p1: nat, p2: nat)
    requires 0 < |gs| == |afs| && forall k :: 0 <= k < |gs| ==> Viable(gs[k])
    requires p1 == Parents(gs, afs, fitnessSum, rng, at).0 && p2 == Parents(gs, afs, fitnessSum, rng, at).1
    ensures p1 < |gs| && p2 < |gs|
    ensures Child(gs, afs, fitnessSum, rates, rng, innov, at) == Bred(gs[p1], gs[p2], rates, rng, innov, at + 2)
  {
  }

  /** `c` was born of the genomes at positions `pk.0` and `pk.1` of `gs`: the first is
      the one of lower adjusted fitness, and `c` carries every connection gene of it. */
  ghost predicate ChildOf(gs: seq<Genome>, pk: (nat, nat), c: Genome) {
    pk.0 < |gs| && pk.1 < |gs| &&
    gs[pk.0].adjustedFitness <= gs[pk.1].adjustedFitness &&
    Extends(gs[pk.0].connectionGenes, c.connectionGenes)
  }

  /** The first loop of `reproduction`: the sum of the adjusted fitnesses. */
  method SumFitness(gs: seq<Genome>) returns (sum: real)
    ensures sum == FitnessSum(gs)
  {
    sum := 0.0;
    for k := 0 to |gs|
      invariant sum == FitnessSum(gs[..k])
    {
      assert gs[..k + 1][..k] == gs[..k];
      sum := sum + gs[k].adjustedFitness;
    }
    assert gs[..|gs|] == gs;
  }

  class Population {
    var populationSize: nat
    var genomes: seq<Genome>
    var species: seq<seq<nat>>
    var specieRepresentatives: seq<Genome>
    var specieTreshold: real
    var mutationAddNode: real
    var mutationDelNode: real
    var mutationAddConnection: real
    var mutationDelConnection: real
    var mutationWeight: real
    var mutationWeightStep: real
    var mutationActivation: real
    var speciationSizeInversePower: real
    var ageInversePower: real
    var toKill: real

    /** The settings; the genome and species fields are not part of them. */
    function Config(): Settings
      reads this`populationSize, this`specieTreshold, this`mutationAddNode, this`mutationDelNode
      reads this`mutationAddConnection, this`mutationDelConnection, this`mutationWeight
      reads this`mutationWeightStep, this`mutationActivation, this`speciationSizeInversePower
      reads this`ageInversePower, this`toKill
    {
      Settings(populationSize, specieTreshold, mutationAddNode, mutationDelNode, mutationAddConnection,
               mutationDelConnection, mutationWeight, mutationWeightStep, mutationActivation,
               speciationSizeInversePower, ageInversePower, toKill)
    }

    function Rates(): Reproduction.Rates
      reads this`mutationAddNode, this`mutationAddConnection, this`mutationWeight
      reads this`mutationDelConnection, this`mutationActivation
    {
      Reproduction.Rates(mutationAddNode, mutationAddConnection, mutationWeight, mutationDelConnection, mutationActivation)
    }

    /** An empty population of the given size with the member initialisers. */
    constructor (populationSize: nat)
      ensures Config() == Settings(populationSize, 2.0, 0.005, 0.0001, 0.05, 0.001, 0.1, 0.05, 0.1, 1.0, 0.0, 0.5)
      ensures genomes == [] && species == [] && specieRepresentatives == []
    {
      this.populationSize := populationSize;
      genomes, species, specieRepresentatives := [], [], [];
      specieTreshold := 2.0;
      mutationAddNode, mutationDelNode := 0.005, 0.0001;
      mutationAddConnection, mutationDelConnection := 0.05, 0.001;
      mutationWeight, mutationWeightStep, mutationActivation := 0.1, 0.05, 0.1;
      speciationSizeInversePower, ageInversePower := 1.0, 0.0;
      toKill := 0.5;
    }

    /**
     * `Population::generate`: `popSize` copies of one freshly generated genome. The
     * counter advances by `nInputs * nOutputs` even when no copy is made.
     */
    static method Generate(popSize: nat, nInputs: nat, nOutputs: nat, innov: nat, weights: seq<real>)
      returns (pop: Population, innov': nat)
      requires |weights| == nInputs * nOutputs
      requires forall k :: 0 <= k < |weights| ==> -1.0 <= weights[k] < 1.0
      ensures fresh(pop)
      ensures pop.Config() == Settings(popSize, 2.0, 0.005, 0.0001, 0.05, 0.001, 0.1, 0.05, 0.1, 1.0, 0.0, 0.5)
      ensures pop.species == [] && pop.specieRepresentatives == [] && |pop.genomes| == popSize
      ensures innov' == innov + nInputs * nOutputs
      ensures forall k :: 0 <= k < popSize ==> pop.genomes[k] == pop.genomes[0]
      ensures forall k :: 0 <= k < popSize ==>
        WellFormed(pop.genomes[k], innov') && |pop.genomes[k].nodeGenes| == nInputs + nOutputs &&
        |pop.genomes[k].connectionGenes| == nInputs * nOutputs && pop.genomes[k].age == 0
      ensures forall k :: 0 <= k < popSize ==> MinimalGenome(pop.genomes[k], nInputs, nOutputs, innov, weights)
    {
      pop := new Population(popSize);
      var g;
      g, innov' := Genomes.Generate(nInputs, nOutputs, innov, weights);
      var gs: seq<Genome> := [];
      for i := 0 to popSize
        invariant gs == seq(i, _ => g)
      {
        gs := gs + [g];
      }
      pop.genomes := gs;
    }

    /**
     * `generate_species`: the genomes are placed among the representatives, then
     * every empty species goes, with its representative.
     */
    method GenerateSpecies()
      modifies this
      ensures Config() == old(Config()) && genomes == old(genomes)
      ensures var a := Assigned(genomes, old(specieRepresentatives), specieTreshold);
        (species, specieRepresentatives) == Prune(a.0, a.1, |a.0| - 1)
      ensures Partition(species, |genomes|) && |species| == |specieRepresentatives| && NoneEmpty(species)
    {
      species, specieRepresentatives := FormSpecies(genomes, specieRepresentatives, specieTreshold);
    }

    /**
     * `selection`: forms the species, sets every genome's adjusted fitness, truncates
     * every species, erases the genomes some truncated species still holds, and
     * truncates what is left. `pow` is the power function.
     */
    method Select(pow: (real, real) -> real) returns (ghost formed: seq<seq<nat>>)
      requires PowNonZero(genomes, pow, speciationSizeInversePower, ageInversePower)
      modifies this
      ensures Config() == old(Config())
      ensures speciationSizeInversePower == old(speciationSizeInversePower) && ageInversePower == old(ageInversePower)
      ensures var a := Assigned(old(genomes), old(specieRepresentatives), specieTreshold);
        (formed, specieRepresentatives) == Prune(a.0, a.1, |a.0| - 1)
      ensures Partition(formed, |old(genomes)|) && NoneEmpty(formed)
      ensures species == TruncateAll(formed, Adjusted(old(genomes), formed, pow, speciationSizeInversePower, ageInversePower), toKill)
      ensures genomes == Selection.Select(old(genomes), formed, pow, speciationSizeInversePower, ageInversePower, toKill)
    {
      var sp, reps := FormSpecies(genomes, specieRepresentatives, specieTreshold);
      formed := sp;
      var kept, truncated := Cull(genomes, sp, pow, speciationSizeInversePower, ageInversePower, toKill);
      genomes, species, specieRepresentatives := kept, truncated, reps;
    }

    /**
     * `reproduction`: refills the population to its size with children of the
     * current genomes, then ages every genome by one. `reg` is the registry of
     * markers handed out so far.
     */
    method Reproduce(innov: nat, rng: Rng, ghost reg: map<nat, (nat, nat)>)
      returns (innov': nat, ghost reg': map<nat, (nat, nat)>, ghost parents: seq<(nat, nat)>)
      requires 0 < |genomes| <= populationSize && rng.Valid()
      requires forall k :: 0 <= k < |genomes| ==> Member(genomes[k], innov, reg)
      requires RegistryBelow(reg, innov)
      modifies this, rng
      ensures Config() == old(Config())
      ensures species == old(species) && specieRepresentatives == old(specieRepresentatives)
      ensures |genomes| == populationSize && rng.Valid()
      ensures forall k :: 0 <= k < |old(genomes)| ==> genomes[k] == old(genomes)[k].(age := old(genomes)[k].age + 1)
      ensures forall k :: |old(genomes)| <= k < |genomes| ==> genomes[k].age == 1
      ensures |parents| == populationSize - |old(genomes)|
      ensures forall k :: 0 <= k < |parents| ==> ChildOf(old(genomes), parents[k], genomes[|old(genomes)| + k])
      ensures innov <= innov' && RegistryBelow(reg', innov')
      ensures forall x :: x in reg ==> x in reg' && reg'[x] == reg[x]
      ensures forall k :: 0 <= k < |genomes| ==> Member(genomes[k], innov', reg')
      ensures forall k :: 0 <= k < |old(genomes)| ==> Viable(old(genomes)[k])
      ensures forall k :: |old(genomes)| <= k < |genomes| ==>
        genomes[k] == Born(old(genomes), Rates(), rng, innov, old(rng.calls), populationSize - |old(genomes)|).0[k - |old(genomes)|].(age := 1)
      ensures innov' == Born(old(genomes), Rates(), rng, innov, old(rng.calls), populationSize - |old(genomes)|).1
      ensures rng.calls == Born(old(genomes), Rates(), rng, innov, old(rng.calls), populationSize - |old(genomes)|).2
    {
      ghost var rates := Rates();
      var r;
      r, innov', reg', parents := Renewed(genomes, populationSize, Rates(), rng, innov, reg);
      genomes := r;
      assert Rates() == rates;
    }
  }
}
