/**
 * Reproduction: the random number source, the roulette that picks two parents, and
 * the breeding of one child (crossover followed by the mutation rolls).
 */
module Reproduction {
  import opened Genes
  import opened Genomes

  // ---------------------------------------------------------------------------
  // The random source

  /**
   * The process-wide generator behind `randomf`, `random` and `randomnorm`, as three
   * fixed tapes read at the position given by the number of draws made so far.
   * `uniform` yields values in [0, 1); `random(n)` is a tape value reduced below `n`;
   * `randomnorm(mean, sigma)` is `mean + sigma * z` for a standard normal tape value `z`.
   */
  class Rng {
    const uniform: nat -> real
    const integer: nat -> nat
    const normal: nat -> real
    var calls: nat

    ghost predicate Valid() {
      forall k :: 0.0 <= uniform(k) < 1.0
    }

    constructor (uniform: nat -> real, integer: nat -> nat, normal: nat -> real)
      requires forall k :: 0.0 <= uniform(k) < 1.0
      ensures Valid() && calls == 0
      ensures this.uniform == uniform && this.integer == integer && this.normal == normal
    {
      this.uniform, this.integer, this.normal := uniform, integer, normal;
      calls := 0;
    }

    /** `randomf()`: a draw from [0, 1). */
    method Randomf() returns (r: real)
      requires Valid()
      modifies this
      ensures r == uniform(old(calls)) && 0.0 <= r < 1.0 && calls == old(calls) + 1
    {
      r := uniform(calls);
      calls := calls + 1;
    }

    /** `random(n)`: a draw from [0, n). */
    method Random(n: nat) returns (r: nat)
      requires n > 0
      modifies this
      ensures r == integer(old(calls)) % n && r < n && calls == old(calls) + 1
    {
      r := integer(calls) % n;
      calls := calls + 1;
    }

    /** `randomnorm(mean, sigma)`: a normal draw. */
    method Randomnorm(mean: real, sigma: real) returns (r: real)
      modifies this
      ensures r == mean + sigma * normal(old(calls)) && calls == old(calls) + 1
    {
      r := mean + sigma * normal(calls);
      calls := calls + 1;
    }
  }

  // ---------------------------------------------------------------------------
  // The roulette

  /** The sum of `afs[j..]`. */
  function SumFrom(afs: seq<real>, j: nat): real
    requires j <= |afs|
    decreases |afs| - j
  {
    if j == |afs| then 0.0 else afs[j] + SumFrom(afs, j + 1)
  }

  /** Textbook roulette, the reference: the first position from `j` on at which the
      running residue `r - afs[j] - afs[j+1] - ...` drops below zero. */
  function Pick(afs: seq<real>, j: nat, r: real): (c: Option<nat>)
    requires j <= |afs|
    ensures c.Some? ==> j <= c.value < |afs|
    decreases |afs| - j
  {
    if j == |afs| then None else if r - afs[j] < 0.0 then Some(j) else Pick(afs, j + 1, r - afs[j])
  }

  predicate NonNegative(afs: seq<real>) {
    forall k :: 0 <= k < |afs| ==> 0.0 <= afs[k]
  }

  /** A residue drawn from [0, sum) always lands on some position. */
  lemma {:induction false} PickLands(afs: seq<real>, j: nat, r: real)
    requires j <= |afs| && NonNegative(afs) && 0.0 <= r < SumFrom(afs, j)
    ensures Pick(afs, j, r).Some?
    decreases |afs| - j
  {
    if j < |afs| && r - afs[j] >= 0.0 {
      PickLands(afs, j + 1, r - afs[j]);
    }
  }

  /**
   * The two-residue loop of `reproduction` from position `j`, residues `r1`, `r2`
   * and picks `p1`, `p2`: it stops once both residues are negative; otherwise it
   * subtracts the fitness at `j` from both, sets `p1` when `r1` is negative, and
   * only otherwise sets `p2` when `r2` is negative.
   */
  function Spin(afs: seq<real>, j: nat, r1: real, r2: real, p1: nat, p2: nat): (r: (nat, nat))
    requires j <= |afs|
    decreases |afs| - j
  {
    if j == |afs| || (r1 < 0.0 && r2 < 0.0) then (p1, p2)
    else
      var a, b := r1 - afs[j], r2 - afs[j];
      if a < 0.0 then Spin(afs, j + 1, a, b, j, p2)
      else if b < 0.0 then Spin(afs, j + 1, a, b, p1, j)
      else Spin(afs, j + 1, a, b, p1, p2)
  }

  /** Both picks are positions of the parent list. */
  lemma {:induction false} SpinInRange(afs: seq<real>, j: nat, r1: real, r2: real, p1: nat, p2: nat)
    requires j <= |afs| && p1 < |afs| && p2 < |afs|
    ensures Spin(afs, j, r1, r2, p1, p2).0 < |afs| && Spin(afs, j, r1, r2, p1, p2).1 < |afs|
    decreases |afs| - j
  {
    if !(j == |afs| || (r1 < 0.0 && r2 < 0.0)) {
      var a, b := r1 - afs[j], r2 - afs[j];
      if a < 0.0 {
        SpinInRange(afs, j + 1, a, b, j, p2);
      } else if b < 0.0 {
        SpinInRange(afs, j + 1, a, b, p1, j);
      } else {
        SpinInRange(afs, j + 1, a, b, p1, p2);
      }
    }
  }

  /**
   * When the first draw is not larger than the second, the second pick is never
   * set, and the first pick is where the SECOND residue lands: the first residue
   * goes negative no later, and `p1` keeps moving until both are negative.
   */
  lemma {:induction false} SpinFirstLeads(afs: seq<real>, j: nat, r1: real, r2: real, p1: nat, p2: nat)
    requires j <= |afs| && r1 <= r2 && 0.0 <= r2
    ensures Spin(afs, j, r1, r2, p1, p2).1 == p2
    ensures Pick(afs, j, r2).Some? ==> Spin(afs, j, r1, r2, p1, p2).0 == Pick(afs, j, r2).value
    decreases |afs| - j
  {
    if j < |afs| {
      var a, b := r1 - afs[j], r2 - afs[j];
      if b >= 0.0 {
        if a < 0.0 {
          SpinFirstLeads(afs, j + 1, a, b, j, p2);
        } else {
          SpinFirstLeads(afs, j + 1, a, b, p1, p2);
        }
      }
    }
  }

  /** Once the second residue is negative and the first is not, with non-negative
      fitness: the first pick is where the first residue lands, and the second pick is
      the position just before it. */
  lemma {:induction false} SpinSecondTrails(afs: seq<real>, j: nat, r1: real, r2: real, p1: nat, p2: nat)
    requires j <= |afs| && NonNegative(afs) && r2 < 0.0 <= r1 && Pick(afs, j, r1).Some?
    ensures var c := Pick(afs, j, r1).value;
      Spin(afs, j, r1, r2, p1, p2) == (c, if c > j then c - 1 else p2)
    decreases |afs| - j
  {
    var a, b := r1 - afs[j], r2 - afs[j];
    if a >= 0.0 {
      SpinSecondTrails(afs, j + 1, a, b, p1, j);
    }
  }

  /**
   * When the second draw is smaller than the first, with non-negative fitness: the
   * first pick is where the first residue lands, and the second pick is either
   * untouched or the position just before the first pick. Together with
   * `SpinFirstLeads`: the two parents are never chosen independently.
   */
  lemma {:induction false} SpinSecondLags(afs: seq<real>, j: nat, r1: real, r2: real, p1: nat, p2: nat)
    requires j <= |afs| && NonNegative(afs) && r2 < r1 && 0.0 <= r1 && Pick(afs, j, r1).Some?
    ensures var c := Pick(afs, j, r1).value; var r := Spin(afs, j, r1, r2, p1, p2);
      r.0 == c && (r.1 == p2 || (j < c && r.1 == c - 1))
    decreases |afs| - j
  {
    if r2 < 0.0 {
      SpinSecondTrails(afs, j, r1, r2, p1, p2);
    } else {
      var a, b := r1 - afs[j], r2 - afs[j];
      if a >= 0.0 {
        if b < 0.0 {
          SpinSecondTrails(afs, j + 1, a, b, p1, j);
        } else {
          SpinSecondLags(afs, j + 1, a, b, p1, p2);
        }
      }
    }
  }

  /** The roulette loop of `reproduction` over the parents' adjusted fitness. */
  method Roulette(afs: seq<real>, r1: real, r2: real) returns (p1: nat, p2: nat)
    ensures (p1, p2) == Spin(afs, 0, r1, r2, 0, 0)
    ensures |afs| > 0 ==> p1 < |afs| && p2 < |afs|
  {
    p1, p2 := 0, 0;
    var a, b := r1, r2;
    for j := 0 to |afs|
      invariant Spin(afs, j, a, b, p1, p2) == Spin(afs, 0, r1, r2, 0, 0)
      invariant |afs| > 0 ==> p1 < |afs| && p2 < |afs|
    {
      if a < 0.0 && b < 0.0 {
        break;
      }
      a := a - afs[j];
      b := b - afs[j];
      if a < 0.0 {
        p1 := j;
        continue;
      }
      if b < 0.0 {
        p2 := j;
        continue;
      }
    }
  }

  // ---------------------------------------------------------------------------
  // Innovation registry

  /**
   * All genomes of one run agree on what each marker joins, because every marker is
   * handed out once. `reg` maps each marker handed out so far to its endpoints.
   */
  ghost predicate Conforms(cs: seq<ConnectionGene>, reg: map<nat, (nat, nat)>) {
    forall k :: 0 <= k < |cs| ==> cs[k].innov in reg && reg[cs[k].innov] == (cs[k].inNode, cs[k].outNode)
  }

  /** Only markers below the counter have been handed out. */
  ghost predicate RegistryBelow(reg: map<nat, (nat, nat)>, next: nat) {
    forall x :: x in reg ==> x < next
  }

  /** Two gene lists that follow one registry agree on every shared marker. */
  lemma ConformsAgree(xs: seq<ConnectionGene>, ys: seq<ConnectionGene>, reg: map<nat, (nat, nat)>)
    requires Conforms(xs, reg) && Conforms(ys, reg)
    ensures EndpointsAgree(xs, ys)
  {
  }

  /** Recording a gene that carries the counter's value keeps the list following the registry. */
  lemma ConformsAppend(cs: seq<ConnectionGene>, reg: map<nat, (nat, nat)>, x: ConnectionGene, next: nat)
    requires Conforms(cs, reg) && RegistryBelow(reg, next) && x.innov == next
    ensures Conforms(cs + [x], reg[next := (x.inNode, x.outNode)])
    ensures RegistryBelow(reg[next := (x.inNode, x.outNode)], next + 1)
  {
    var reg' := reg[next := (x.inNode, x.outNode)];
    forall k | 0 <= k < |cs| ensures cs[k].innov in reg' && reg'[cs[k].innov] == (cs[k].inNode, cs[k].outNode) {
      assert cs[k].innov in reg;
    }
  }

  /** A registry that grows keeps every list that followed it following it. */
  lemma ConformsGrow(cs: seq<ConnectionGene>, reg: map<nat, (nat, nat)>, reg': map<nat, (nat, nat)>)
    requires Conforms(cs, reg) && forall x :: x in reg ==> x in reg' && reg'[x] == reg[x]
    ensures Conforms(cs, reg')
  {
  }

  /** The same structure follows the same registry. */
  lemma ConformsSameStructure(xs: seq<ConnectionGene>, ys: seq<ConnectionGene>, reg: map<nat, (nat, nat)>)
    requires Conforms(xs, reg) && SameStructure(xs, ys)
    ensures Conforms(ys, reg)
  {
    forall k | 0 <= k < |ys| ensures ys[k].innov in reg && reg[ys[k].innov] == (ys[k].inNode, ys[k].outNode) {
      assert xs[k].innov == ys[k].innov;
    }
  }

  // ---------------------------------------------------------------------------
  // One child

  /** A genome every mutation can be applied to: a gene to split and a node that is not
      an input. */
  predicate Viable(g: Genome) {
    |g.connectionGenes| > 0 && g.nInputs < |g.nodeGenes|
  }

  /** `ys` begins with the structure of `xs`: same markers and endpoints, position by position. */
  predicate Extends(xs: seq<ConnectionGene>, ys: seq<ConnectionGene>) {
    |xs| <= |ys| &&
    forall k :: 0 <= k < |xs| ==>
      xs[k].innov == ys[k].innov && xs[k].inNode == ys[k].inNode && xs[k].outNode == ys[k].outNode
  }

  /** The mutation probabilities of a population. */
  datatype Rates = Rates(addNode: real, addConnection: real, weight: real, delConnection: real, activation: real)

  /** What a genome under mutation keeps: the invariant of the module, the registry,
      viability, the parent's structure as a prefix and the fields the operators never touch. */
  ghost predicate Growing(g: Genome, next: nat, reg: map<nat, (nat, nat)>, parent: Genome) {
    WellFormed(g, next) && Conforms(g.connectionGenes, reg) && RegistryBelow(reg, next) && Viable(g) &&
    Extends(parent.connectionGenes, g.connectionGenes) && |parent.nodeGenes| <= |g.nodeGenes| &&
    g == Fresh.(connectionGenes := g.connectionGenes, nodeGenes := g.nodeGenes,
                nInputs := parent.nInputs, nOutputs := parent.nOutputs)
  }

  /** How many genes of `xs` have a partner in `ys`: the number of coins crossover draws. */
  function Partnered(xs: seq<ConnectionGene>, ys: seq<ConnectionGene>): (n: nat)
    ensures n <= |xs|
  {
    if xs == [] then 0
    else Partnered(xs[..|xs| - 1], ys) + if Match(xs[|xs| - 1].innov, ys).Some? then 1 else 0
  }

  /** The coins of crossover read from the uniform tape from position `at` on, and the
      tape position after them: gene i of `xs` keeps its own copy when it has a partner
      and its coin is above one half; a gene with no partner draws no coin. */
  function Coins(xs: seq<ConnectionGene>, ys: seq<ConnectionGene>, rng: Rng, at: nat): (r: (seq<bool>, nat))
    ensures |r.0| == |xs| && r.1 == at + Partnered(xs, ys)
  {
    if xs == [] then ([], at)
    else
      var n := |xs| - 1;
      var front := Coins(xs[..n], ys, rng, at);
      if Match(xs[n].innov, ys).Some? then (front.0 + [rng.uniform(front.1) > 0.5], front.1 + 1)
      else (front.0 + [false], front.1)
  }

  /** Gene k's coin is the tape value after the coins of the partnered genes before it,
      and a gene with no partner never keeps its own copy. */
  lemma {:induction false} CoinsAt(xs: seq<ConnectionGene>, ys: seq<ConnectionGene>, rng: Rng, at: nat, k: nat)
    requires k < |xs|
    ensures Coins(xs, ys, rng, at).0[k] <==>
              Match(xs[k].innov, ys).Some? && rng.uniform(at + Partnered(xs[..k], ys)) > 0.5
    decreases |xs|
  {
    var n := |xs| - 1;
    if k < n {
      CoinsAt(xs[..n], ys, rng, at, k);
      assert xs[..n][..k] == xs[..k];
    } else {
      assert xs[..k] == xs[..n];
    }
  }

  /** The crossover of `first` and `second`, drawing one coin for each gene of `first`
      that has a partner in `second`, in gene order. */
  method Mate(first: Genome, second: Genome, rng: Rng, ghost next: nat, ghost reg: map<nat, (nat, nat)>) returns (child: Genome)
    requires rng.Valid() && Viable(first)
    requires WellFormed(first, next) && Conforms(first.connectionGenes, reg) && Conforms(second.connectionGenes, reg)
    requires RegistryBelow(reg, next)
    modifies rng
    ensures var coins := Coins(first.connectionGenes, second.connectionGenes, rng, old(rng.calls));
      child == Crossed(first, second, coins.0) && rng.calls == coins.1
    ensures rng.calls == old(rng.calls) + Partnered(first.connectionGenes, second.connectionGenes)
    ensures Growing(child, next, reg, first) && child.nodeGenes == first.nodeGenes
  {
    var xs, ys := first.connectionGenes, second.connectionGenes;
    var keep: seq<bool> := [];
    for i := 0 to |xs|
      invariant keep == Coins(xs[..i], ys, rng, old(rng.calls)).0
      invariant rng.calls == Coins(xs[..i], ys, rng, old(rng.calls)).1
    {
      assert xs[..i + 1][..i] == xs[..i];
      if Match(xs[i].innov, ys).Some? {
        var u := rng.Randomf();
        keep := keep + [u > 0.5];
      } else {
        keep := keep + [false];
      }
    }
    assert xs[..|xs|] == xs;
    child := Crossover(first, second, keep);
    ConformsAgree(first.connectionGenes, second.connectionGenes, reg);
    CrossoverWellFormed(first, second, keep, child, next);
    CrossoverKeepsMarkers(first, second, keep, child.connectionGenes);
    assert SameStructure(first.connectionGenes, child.connectionGenes);
    ConformsSameStructure(first.connectionGenes, child.connectionGenes, reg);
  }

  /** The node-split roll from tape position `at`: the genome, the counter and the next
      tape position. Below the rate, an integer draw picks the gene to split. */
  function SplitRolled(g: Genome, rate: real, rng: Rng, innov: nat, at: nat): (r: (Genome, nat, nat))
    requires 0 < |g.connectionGenes|
    ensures r.0.nInputs == g.nInputs && |g.nodeGenes| <= |r.0.nodeGenes| && |g.connectionGenes| <= |r.0.connectionGenes|
  {
    if rng.uniform(at) < rate then (Split(g, rng.integer(at + 1) % |g.connectionGenes|, innov), innov + 2, at + 2)
    else (g, innov, at + 1)
  }

  /** The roll changes the genome exactly when its draw is below the rate, and then it
      uses two markers. */
  lemma SplitRolledChanges(g: Genome, rate: real, rng: Rng, innov: nat, at: nat)
    requires 0 < |g.connectionGenes|
    ensures var r := SplitRolled(g, rate, rng, innov, at);
      (r.0 != g <==> rng.uniform(at) < rate) && (r.0 != g <==> r.1 == innov + 2) && (r.0 == g <==> r.1 == innov)
  {
    var r := SplitRolled(g, rate, rng, innov, at);
    if rng.uniform(at) < rate {
      assert |r.0.nodeGenes| != |g.nodeGenes|;
    }
  }

  /** The node-split roll. */
  method SplitRoll(m: MutableGenome, rates: Rates, rng: Rng, innov: nat, ghost reg: map<nat, (nat, nat)>, ghost parent: Genome)
    returns (innov': nat, ghost reg': map<nat, (nat, nat)>)
    requires rng.Valid() && Growing(m.Value(), innov, reg, parent)
    modifies m, rng
    ensures (m.Value(), innov', rng.calls) == SplitRolled(old(m.Value()), rates.addNode, rng, innov, old(rng.calls))
    ensures innov <= innov' && Growing(m.Value(), innov', reg', parent)
    ensures forall x :: x in reg ==> x in reg' && reg'[x] == reg[x]
  {
    innov', reg' := innov, reg;
    var u := rng.Randomf();
    if u < rates.addNode {
      var draw := rng.Random(|m.connectionGenes|);
      ghost var before := m.Value();
      innov' := m.AddNodeMutation(innov, draw);
      ghost var after := m.Value();
      assert after.nodeGenes == m.nodeGenes && after.connectionGenes == m.connectionGenes;
      reg' := SplitGrowing(before, after, innov, reg, parent, draw);
    }
  }

  /** A node split keeps a growing genome growing; the two new markers are registered
      with their endpoints. */
  lemma SplitGrowing(g: Genome, h: Genome, innov: nat, reg: map<nat, (nat, nat)>, parent: Genome, draw: nat)
    returns (reg': map<nat, (nat, nat)>)
    requires Growing(g, innov, reg, parent) && draw < |g.connectionGenes|
    requires h == Split(g, draw, innov) && WellFormed(h, innov + 2)
    ensures Growing(h, innov + 2, reg', parent)
    ensures forall x :: x in reg ==> x in reg' && reg'[x] == reg[x]
  {
    var before := g.connectionGenes;
    var c := before[draw];
    var disabled := before[draw := c.(enabled := false)];
    assert SameStructure(before, disabled);
    ConformsSameStructure(before, disabled, reg);
    var x1, x2 := h.connectionGenes[|disabled|], h.connectionGenes[|disabled| + 1];
    ConformsAppend(disabled, reg, x1, innov);
    var mid := reg[innov := (x1.inNode, x1.outNode)];
    ConformsAppend(disabled + [x1], mid, x2, innov + 1);
    reg' := mid[innov + 1 := (x2.inNode, x2.outNode)];
    assert h.connectionGenes == disabled + [x1] + [x2];
  }

  /**
   * The new-connection roll from tape position `at`: the genome, the counter and the next
   * tape position. Below the rate, the draws of `add_connection_mutation` follow.
   */
  function ConnectRolled(g: Genome, rate: real, rng: Rng, innov: nat, at: nat): (r: (Genome, nat, nat))
    requires g.nInputs < |g.nodeGenes|
  {
    if rng.uniform(at) < rate then Connected(g, rng, innov, at + 1) else (g, innov, at + 1)
  }

  /** `add_connection_mutation` from tape position `at`: two integer draws pick the nodes;
      a new pair then draws its weight from the uniform tape. */
  function Connected(g: Genome, rng: Rng, innov: nat, at: nat): (r: (Genome, nat, nat))
    requires g.nInputs < |g.nodeGenes|
  {
    var n := |g.nodeGenes|;
    var a := rng.integer(at) % n;
    var lo := Max(g.nInputs, a);
    var b := lo + rng.integer(at + 1) % (n - lo);
    if a != b && !Linked(g.connectionGenes, a, b) then
      var w := rng.uniform(at + 2) * 2.0 - 1.0;
      (g.(connectionGenes := g.connectionGenes + [Oriented(g.nodeGenes, a, b, innov, w)]), innov + 1, at + 3)
    else (g, innov, at + 2)
  }

  /** The roll changes the genome exactly when its draw is below the rate and the drawn
      nodes are two different nodes no gene joins yet; a change uses one marker. */
  lemma ConnectRolledChanges(g: Genome, rate: real, rng: Rng, innov: nat, at: nat)
    requires g.nInputs < |g.nodeGenes|
    ensures var r := ConnectRolled(g, rate, rng, innov, at);
      var n := |g.nodeGenes|;
      var a := rng.integer(at + 1) % n;
      var b := Max(g.nInputs, a) + rng.integer(at + 2) % (n - Max(g.nInputs, a));
      (r.0 != g <==> rng.uniform(at) < rate && a != b && !Linked(g.connectionGenes, a, b)) &&
      (r.0 != g <==> r.1 == innov + 1) && (r.0 == g <==> r.1 == innov)
  {
    var r := ConnectRolled(g, rate, rng, innov, at);
    if r.0 != g {
      assert |r.0.connectionGenes| != |g.connectionGenes|;
    }
  }

  /** The new-connection roll. */
  method ConnectRoll(m: MutableGenome, rates: Rates, rng: Rng, innov: nat, ghost reg: map<nat, (nat, nat)>, ghost parent: Genome)
    returns (innov': nat, ghost reg': map<nat, (nat, nat)>)
    requires rng.Valid() && Growing(m.Value(), innov, reg, parent)
    modifies m, rng
    ensures (m.Value(), innov', rng.calls) == ConnectRolled(old(m.Value()), rates.addConnection, rng, innov, old(rng.calls))
    ensures innov <= innov' && Growing(m.Value(), innov', reg', parent)
    ensures forall x :: x in reg ==> x in reg' && reg'[x] == reg[x]
  {
    ghost var g, at := m.Value(), rng.calls;
    innov' := ConnectMutation(m, rates.addConnection, rng, innov);
    reg' := ConnectGrowing(g, m.Value(), rates.addConnection, rng, innov, innov', at, reg, parent);
  }

  /** `if (randomf() < rate) add_connection_mutation()`. */
  method ConnectMutation(m: MutableGenome, rate: real, rng: Rng, innov: nat) returns (innov': nat)
    requires rng.Valid() && m.nInputs < |m.nodeGenes|
    modifies m, rng
    ensures m.Value() == ConnectRolled(old(m.Value()), rate, rng, innov, old(rng.calls)).0
    ensures innov' == ConnectRolled(old(m.Value()), rate, rng, innov, old(rng.calls)).1
    ensures rng.calls == ConnectRolled(old(m.Value()), rate, rng, innov, old(rng.calls)).2
    ensures WellFormed(old(m.Value()), innov) ==> WellFormed(m.Value(), innov')
  {
    innov' := innov;
    var u := rng.Randomf();
    if u < rate {
      innov' := ConnectDrawn(m, rng, innov);
    }
  }

  /** `add_connection_mutation` with its draws taken from the tape. */
  method ConnectDrawn(m: MutableGenome, rng: Rng, innov: nat) returns (innov': nat)
    requires rng.Valid() && m.nInputs < |m.nodeGenes|
    modifies m, rng
    ensures rng.Valid()
    ensures m.Value() == Connected(old(m.Value()), rng, innov, old(rng.calls)).0
    ensures innov' == Connected(old(m.Value()), rng, innov, old(rng.calls)).1
    ensures rng.calls == Connected(old(m.Value()), rng, innov, old(rng.calls)).2
    ensures WellFormed(old(m.Value()), innov) ==> WellFormed(m.Value(), innov')
  {
    ghost var g := m.Value();
    var a, b, w := DrawConnection(m.nodeGenes, m.nInputs, m.connectionGenes, rng);
    ConnectedFrom(g, rng, innov, old(rng.calls), a, b, w);
    innov' := m.AddConnectionMutation(innov, a, b, w);
  }

  /** The draws in terms of the drawn nodes `a`, `max(nInputs, a) + b` and weight `w`. */
  lemma ConnectedFrom(g: Genome, rng: Rng, innov: nat, at: nat, a: nat, b: nat, w: real)
    requires g.nInputs < |g.nodeGenes|
    requires var n := |g.nodeGenes|;
      a == rng.integer(at) % n && b == rng.integer(at + 1) % (n - Max(g.nInputs, a))
    requires var b' := Max(g.nInputs, a) + b;
      a != b' && !Linked(g.connectionGenes, a, b') ==> w == rng.uniform(at + 2) * 2.0 - 1.0
    ensures var b' := Max(g.nInputs, a) + b; var r := Connected(g, rng, innov, at);
      if a != b' && !Linked(g.connectionGenes, a, b') then
        r.0 == g.(connectionGenes := g.connectionGenes + [Oriented(g.nodeGenes, a, b', innov, w)]) &&
        r.1 == innov + 1 && r.2 == at + 3
      else r.0 == g && r.1 == innov && r.2 == at + 2
  {
  }

  /** The draws of `add_connection_mutation` over the nodes `ns` and genes `cs`: the first
      node, the offset of the second from `max(nInputs, first)`, and, for a pair of
      different nodes no gene joins yet, the weight. */
  method DrawConnection(ns: seq<NodeGene>, nInputs: nat, cs: seq<ConnectionGene>, rng: Rng)
    returns (a: nat, b: nat, w: real)
    requires rng.Valid() && nInputs < |ns|
    modifies rng
    ensures var at, n := old(rng.calls), |ns|;
      a == rng.integer(at) % n && b == rng.integer(at + 1) % (n - Max(nInputs, a)) &&
      if a != Max(nInputs, a) + b && !Linked(cs, a, Max(nInputs, a) + b) then
        w == rng.uniform(at + 2) * 2.0 - 1.0 && rng.calls == at + 3
      else
        w == 0.0 && rng.calls == at + 2
    ensures a < |ns| && b < |ns| - Max(nInputs, a) && -1.0 <= w < 1.0
  {
    var n := |ns|;
    a := rng.Random(n);
    var lo := Max(nInputs, a);
    b := rng.Random(n - lo);
    // the weight is drawn only once the pair is known to be new
    w := 0.0;
    if a != lo + b && !Linked(cs, a, lo + b) {
      var v := rng.Randomf();
      w := v * 2.0 - 1.0;
    }
  }

  /** A connection roll keeps a growing genome growing: either nothing changed, or one
      gene carrying the counter's value was appended and is registered. */
  lemma ConnectGrowing(g: Genome, h: Genome, rate: real, rng: Rng, innov: nat, innov': nat, at: nat,
                       reg: map<nat, (nat, nat)>, parent: Genome)
    returns (reg': map<nat, (nat, nat)>)
    requires Growing(g, innov, reg, parent) && WellFormed(h, innov')
    requires h == ConnectRolled(g, rate, rng, innov, at).0 && innov' == ConnectRolled(g, rate, rng, innov, at).1
    ensures innov <= innov' && Growing(h, innov', reg', parent)
    ensures forall x :: x in reg ==> x in reg' && reg'[x] == reg[x]
  {
    reg' := reg;
    if innov' != innov {
      var before := g.connectionGenes;
      var x := h.connectionGenes[|before|];
      assert h.connectionGenes == before + [x];
      ConformsAppend(before, reg, x, innov);
      reg' := reg[innov := (x.inNode, x.outNode)];
    }
  }

  /** The two rolls of gene `c` from tape position `at`: below the weight rate, the
      normal draw scaled by `step` is added to its weight; below the delete rate, it is
      disabled. The result holds the new gene and the next tape position. */
  function GeneRolled(c: ConnectionGene, rates: Rates, step: real, rng: Rng, at: nat): (r: (ConnectionGene, nat))
    ensures r.0.inNode == c.inNode && r.0.outNode == c.outNode && r.0.innov == c.innov
    ensures at + 2 <= r.1 <= at + 3
  {
    var weighted := rng.uniform(at) < rates.weight;
    var c' := if weighted then c.(w := c.w + step * rng.normal(at + 1)) else c;
    var p := if weighted then at + 2 else at + 1;
    if rng.uniform(p) < rates.delConnection then (c'.(enabled := false), p + 1) else (c', p + 1)
  }

  /** The gene rolls over `cs` in order from tape position `at`: the new genes and the
      next tape position. */
  function GenesRolled(cs: seq<ConnectionGene>, rates: Rates, step: real, rng: Rng, at: nat): (r: (seq<ConnectionGene>, nat))
    ensures SameStructure(cs, r.0) && at + 2 * |cs| <= r.1
  {
    if cs == [] then ([], at)
    else
      var n := |cs| - 1;
      var front := GenesRolled(cs[..n], rates, step, rng, at);
      var last := GeneRolled(cs[n], rates, step, rng, front.1);
      (front.0 + [last.0], last.1)
  }

  /** One gene's rolls from tape position `p`: its weight moves by the scaled normal draw
      exactly when its first roll is below the weight rate, it is disabled when its second
      roll is below the delete rate and is otherwise left as enabled as it was, and
      nothing else of it changes. */
  lemma GeneRolledEffect(c: ConnectionGene, rates: Rates, step: real, rng: Rng, p: nat)
    ensures var c' := GeneRolled(c, rates, step, rng, p).0;
      var q := if rng.uniform(p) < rates.weight then p + 2 else p + 1;
      c'.w == (if rng.uniform(p) < rates.weight then c.w + step * rng.normal(p + 1) else c.w) &&
      c'.enabled == (c.enabled && !(rng.uniform(q) < rates.delConnection)) &&
      c' == c.(w := c'.w, enabled := c'.enabled)
  {
  }

  /** Gene `k` after the rolls of the whole list is the outcome of its own rolls, read
      from the tape position the genes before it leave. */
  lemma {:induction false} GenesRolledAt(cs: seq<ConnectionGene>, rates: Rates, step: real, rng: Rng, at: nat, k: nat)
    requires k < |cs|
    ensures GenesRolled(cs, rates, step, rng, at).0[k] == GeneRolled(cs[k], rates, step, rng, GenesRolled(cs[..k], rates, step, rng, at).1).0
  {
    var n := |cs| - 1;
    var front := GenesRolled(cs[..n], rates, step, rng, at);
    assert GenesRolled(cs, rates, step, rng, at).0 == front.0 + [GeneRolled(cs[n], rates, step, rng, front.1).0];
    if k < n {
      GenesRolledAt(cs[..n], rates, step, rng, at, k);
      assert cs[..n][..k] == cs[..k];
    } else {
      assert cs[..k] == cs[..n];
    }
  }

  /** The activation roll of node `v` from tape position `at`: below the rate, an integer
      draw picks its new activation. */
  function NodeRolled(v: NodeGene, rate: real, rng: Rng, at: nat): (r: (NodeGene, nat))
    ensures r.0.id == v.id && r.0.kind == v.kind && at + 1 <= r.1 <= at + 2
  {
    if rng.uniform(at) < rate then (v.(func := ActivationOf(rng.integer(at + 1) % ActivationCount)), at + 2)
    else (v, at + 1)
  }

  /** The activation rolls over `vs` in order from tape position `at`. */
  function NodesRolled(vs: seq<NodeGene>, rate: real, rng: Rng, at: nat): (r: (seq<NodeGene>, nat))
    ensures |r.0| == |vs| && at + |vs| <= r.1
    ensures forall k :: 0 <= k < |vs| ==> r.0[k].id == vs[k].id && r.0[k].kind == vs[k].kind
  {
    if vs == [] then ([], at)
    else
      var n := |vs| - 1;
      var front := NodesRolled(vs[..n], rate, rng, at);
      var last := NodeRolled(vs[n], rate, rng, front.1);
      (front.0 + [last.0], last.1)
  }

  /** Node `k` after the rolls, in terms of the tape position `p` its roll is at: its
      activation becomes the drawn one exactly when the roll is below the rate. */
  lemma {:induction false} NodesRolledAt(vs: seq<NodeGene>, rate: real, rng: Rng, at: nat, k: nat)
    requires k < |vs|
    ensures var v, v', p := vs[k], NodesRolled(vs, rate, rng, at).0[k], NodesRolled(vs[..k], rate, rng, at).1;
      v' == NodeRolled(v, rate, rng, p).0 &&
      v' == (if rng.uniform(p) < rate then v.(func := ActivationOf(rng.integer(p + 1) % ActivationCount)) else v)
  {
    var n := |vs| - 1;
    if k < n {
      NodesRolledAt(vs[..n], rate, rng, at, k);
      assert vs[..n][..k] == vs[..k];
    } else {
      assert vs[..k] == vs[..n];
    }
  }

  /** The gene rolls, with the genome's own weight step, then the node rolls, from tape
      position `at`: the genome and the next tape position. */
  function Perturbed(g: Genome, rates: Rates, rng: Rng, at: nat): (r: (Genome, nat))
    ensures SameStructure(g.connectionGenes, r.0.connectionGenes) && |r.0.nodeGenes| == |g.nodeGenes|
    ensures r.0 == g.(connectionGenes := r.0.connectionGenes, nodeGenes := r.0.nodeGenes)
  {
    var cs := GenesRolled(g.connectionGenes, rates, g.mutationWeightStep, rng, at);
    var vs := NodesRolled(g.nodeGenes, rates.activation, rng, cs.1);
    (g.(connectionGenes := cs.0, nodeGenes := vs.0), vs.1)
  }

  /** After the rolls of the first `i` genes, the list `cs` still holds gene `i`, and
      rolling it gives the list and tape position after the first `i + 1`. */
  lemma GenesRolledStep(xs: seq<ConnectionGene>, rates: Rates, step: real, rng: Rng, at: nat, i: nat, cs: seq<ConnectionGene>)
    requires i < |xs| && cs == GenesRolled(xs[..i], rates, step, rng, at).0 + xs[i..]
    ensures i < |cs| && cs[i] == xs[i]
    ensures var r := GeneRolled(xs[i], rates, step, rng, GenesRolled(xs[..i], rates, step, rng, at).1);
      cs[i := r.0] == GenesRolled(xs[..i + 1], rates, step, rng, at).0 + xs[i + 1..] &&
      r.1 == GenesRolled(xs[..i + 1], rates, step, rng, at).1
  {
    assert xs[..i + 1][..i] == xs[..i];
    var front := GenesRolled(xs[..i], rates, step, rng, at).0;
    var r := GeneRolled(xs[i], rates, step, rng, GenesRolled(xs[..i], rates, step, rng, at).1);
    Spliced(front, xs[i..], r.0);
    assert xs[i..][1..] == xs[i + 1..];
  }

  /** After the rolls of the first `i` nodes, the list `ns` still holds node `i`, and
      rolling it gives the list and tape position after the first `i + 1`. */
  lemma NodesRolledStep(vs: seq<NodeGene>, rate: real, rng: Rng, at: nat, i: nat, ns: seq<NodeGene>)
    requires i < |vs| && ns == NodesRolled(vs[..i], rate, rng, at).0 + vs[i..]
    ensures i < |ns| && ns[i] == vs[i]
    ensures var r := NodeRolled(vs[i], rate, rng, NodesRolled(vs[..i], rate, rng, at).1);
      ns[i := r.0] == NodesRolled(vs[..i + 1], rate, rng, at).0 + vs[i + 1..] &&
      r.1 == NodesRolled(vs[..i + 1], rate, rng, at).1
  {
    assert vs[..i + 1][..i] == vs[..i];
    var front := NodesRolled(vs[..i], rate, rng, at).0;
    var r := NodeRolled(vs[i], rate, rng, NodesRolled(vs[..i], rate, rng, at).1);
    Spliced(front, vs[i..], r.0);
    assert vs[i..][1..] == vs[i + 1..];
  }

  /** Overwriting the first element after a prefix moves it into the prefix. */
  lemma Spliced<T>(front: seq<T>, rest: seq<T>, x: T)
    requires 0 < |rest|
    ensures (front + rest)[|front| := x] == front + [x] + rest[1..]
  {
  }

  /** The two rolls of gene `i`. */
  method GeneMutation(m: MutableGenome, i: nat, rates: Rates, rng: Rng)
    requires rng.Valid() && i < |m.connectionGenes|
    modifies m, rng
    ensures rng.Valid()
    ensures var r := GeneRolled(old(m.connectionGenes[i]), rates, m.mutationWeightStep, rng, old(rng.calls));
      m.connectionGenes == old(m.connectionGenes)[i := r.0] && rng.calls == r.1
    ensures m.Value() == old(m.Value()).(connectionGenes := m.connectionGenes)
  {
    ghost var c, at, cs, step := m.connectionGenes[i], rng.calls, m.connectionGenes, m.mutationWeightStep;
    var u := rng.Randomf();
    if u < rates.weight {
      var delta := rng.Randomnorm(0.0, m.mutationWeightStep);
      m.WeightMutation(i, delta);
    }
    ghost var c', p := m.connectionGenes[i], rng.calls;
    assert m.connectionGenes == cs[i := c'];
    assert c' == if rng.uniform(at) < rates.weight then c.(w := c.w + step * rng.normal(at + 1)) else c;
    assert p == if rng.uniform(at) < rates.weight then at + 2 else at + 1;
    u := rng.Randomf();
    if u < rates.delConnection {
      m.RemoveConnectionMutation(i);
      assert m.connectionGenes == cs[i := c'.(enabled := false)];
    }
    assert m.mutationWeightStep == step;
    assert GeneRolled(c, rates, step, rng, at).1 == p + 1;
    assert GeneRolled(c, rates, step, rng, at).0 == if rng.uniform(p) < rates.delConnection then c'.(enabled := false) else c';
  }

  /** The activation roll of node `i`. */
  method NodeMutation(m: MutableGenome, i: nat, rate: real, rng: Rng)
    requires rng.Valid() && i < |m.nodeGenes|
    modifies m, rng
    ensures rng.Valid()
    ensures var r := NodeRolled(old(m.nodeGenes[i]), rate, rng, old(rng.calls));
      m.nodeGenes == old(m.nodeGenes)[i := r.0] && rng.calls == r.1
    ensures m.Value() == old(m.Value()).(nodeGenes := m.nodeGenes)
  {
    var u := rng.Randomf();
    if u < rate {
      var draw := rng.Random(ActivationCount);
      m.ActivationFuncMutation(i, draw);
    }
  }

  /** The gene rolls over the whole list, with the genome's own weight step. */
  method GenesMutation(m: MutableGenome, rates: Rates, rng: Rng)
    requires rng.Valid()
    modifies m, rng
    ensures rng.Valid() && m.Value() == old(m.Value()).(connectionGenes := m.connectionGenes)
    ensures m.connectionGenes == GenesRolled(old(m.connectionGenes), rates, m.mutationWeightStep, rng, old(rng.calls)).0
    ensures rng.calls == GenesRolled(old(m.connectionGenes), rates, m.mutationWeightStep, rng, old(rng.calls)).1
  {
    ghost var start, at := m.Value(), rng.calls;
    ghost var xs, step := start.connectionGenes, start.mutationWeightStep;
    for i := 0 to |m.connectionGenes|
      invariant rng.Valid() && m.Value() == start.(connectionGenes := m.connectionGenes)
      invariant m.connectionGenes == GenesRolled(xs[..i], rates, step, rng, at).0 + xs[i..]
      invariant rng.calls == GenesRolled(xs[..i], rates, step, rng, at).1
    {
      GenesRolledStep(xs, rates, step, rng, at, i, m.connectionGenes);
      GeneMutation(m, i, rates, rng);
    }
    assert xs[..|xs|] == xs;
  }

  /** The activation rolls over the whole node list. */
  method NodesMutation(m: MutableGenome, rate: real, rng: Rng)
    requires rng.Valid()
    modifies m, rng
    ensures rng.Valid() && m.Value() == old(m.Value()).(nodeGenes := m.nodeGenes)
    ensures m.nodeGenes == NodesRolled(old(m.nodeGenes), rate, rng, old(rng.calls)).0
    ensures rng.calls == NodesRolled(old(m.nodeGenes), rate, rng, old(rng.calls)).1
  {
    ghost var start, at := m.Value(), rng.calls;
    ghost var vs := start.nodeGenes;
    for i := 0 to |m.nodeGenes|
      invariant rng.Valid() && m.Value() == start.(nodeGenes := m.nodeGenes)
      invariant m.nodeGenes == NodesRolled(vs[..i], rate, rng, at).0 + vs[i..]
      invariant rng.calls == NodesRolled(vs[..i], rate, rng, at).1
    {
      NodesRolledStep(vs, rate, rng, at, i, m.nodeGenes);
      NodeMutation(m, i, rate, rng);
    }
    assert vs[..|vs|] == vs;
  }

  /** The per-gene rolls (weight, then disable) and the per-node activation rolls. */
  method Perturb(m: MutableGenome, rates: Rates, rng: Rng, ghost innov: nat, ghost reg: map<nat, (nat, nat)>, ghost parent: Genome)
    requires rng.Valid() && Growing(m.Value(), innov, reg, parent)
    modifies m, rng
    ensures rng.Valid() && (m.Value(), rng.calls) == Perturbed(old(m.Value()), rates, rng, old(rng.calls))
    ensures Growing(m.Value(), innov, reg, parent)
  {
    ghost var start := m.Value();
    GenesMutation(m, rates, rng);
    NodesMutation(m, rates.activation, rng);
    SameStructureWellFormed(start, m.Value(), innov);
    ConformsSameStructure(start.connectionGenes, m.connectionGenes, reg);
  }

  /**
   * The mutation rolls of one child from tape position `at`: the node-split roll, the
   * connection roll (with the markers from `innov` on), and the gene and node rolls.
   * The result holds the mutated genome, the next free marker and the next tape position.
   */
  function Mutated(g: Genome, rates: Rates, rng: Rng, innov: nat, at: nat): (r: (Genome, nat, nat))
    requires Viable(g)
    ensures innov <= r.1 <= innov + 3 && |g.connectionGenes| <= |r.0.connectionGenes|
  {
    var split := SplitRolled(g, rates.addNode, rng, innov, at);
    var joined := ConnectRolled(split.0, rates.addConnection, rng, split.1, split.2);
    var perturbed := Perturbed(joined.0, rates, rng, joined.2);
    (perturbed.0, joined.1, perturbed.1)
  }

  /** One child of `reproduction` read from the tape at position `at`: the crossover of
      `first` and `second` with the coins it draws, then the mutation rolls. The result
      holds the child, the next free marker and the next tape position. */
  function Bred(first: Genome, second: Genome, rates: Rates, rng: Rng, innov: nat, at: nat): (r: (Genome, nat, nat))
    requires Viable(first)
    ensures innov <= r.1 <= innov + 3 && |first.connectionGenes| <= |r.0.connectionGenes|
  {
    var coins := Coins(first.connectionGenes, second.connectionGenes, rng, at);
    Mutated(Crossed(first, second, coins.0), rates, rng, innov, coins.1)
  }

  /** The three mutation rolls on a copy of `g` that the operators update in place. */
  method Mutate(g: Genome, rates: Rates, rng: Rng, innov: nat, ghost reg: map<nat, (nat, nat)>, ghost parent: Genome)
    returns (h: Genome, innov': nat, ghost reg': map<nat, (nat, nat)>)
    requires rng.Valid() && Growing(g, innov, reg, parent)
    modifies rng
    ensures rng.Valid()
    ensures var r := Mutated(g, rates, rng, innov, old(rng.calls));
      h == r.0 && innov' == r.1 && rng.calls == r.2
    ensures innov <= innov' && Growing(h, innov', reg', parent)
    ensures forall x :: x in reg ==> x in reg' && reg'[x] == reg[x]
  {
    var m := new MutableGenome(g);
    var next;
    ghost var mid;
    next, mid := SplitRoll(m, rates, rng, innov, reg, parent);
    innov', reg' := ConnectRoll(m, rates, rng, next, mid, parent);
    Perturb(m, rates, rng, innov', reg', parent);
    h := m.Value();
  }

  /**
   * One child of `reproduction`: the crossover of `first` (the parent of lower
   * adjusted fitness) and `second`, then the node-split roll, the connection roll,
   * two rolls per gene and one roll per node. The child is well formed, follows the
   * grown registry, is viable, begins with the structure of `first`, and has age 0.
   */
  method Breed(first: Genome, second: Genome, rates: Rates, rng: Rng, innov: nat, ghost reg: map<nat, (nat, nat)>)
    returns (child: Genome, innov': nat, ghost reg': map<nat, (nat, nat)>)
    requires rng.Valid() && Viable(first)
    requires WellFormed(first, innov) && Conforms(first.connectionGenes, reg) && Conforms(second.connectionGenes, reg)
    requires RegistryBelow(reg, innov)
    modifies rng
    ensures rng.Valid()
    ensures var r := Bred(first, second, rates, rng, innov, old(rng.calls));
      child == r.0 && innov' == r.1 && rng.calls == r.2
    ensures innov <= innov' && Growing(child, innov', reg', first) && child.age == 0
    ensures forall x :: x in reg ==> x in reg' && reg'[x] == reg[x]
  {
    var mated := Mate(first, second, rng, innov, reg);
    child, innov', reg' := Mutate(mated, rates, rng, innov, reg, first);
  }
}
