/**
 * The genome of the neuro-evolution engine: its node and connection genes,
 * the minimal fully connected genome, crossover, the compatibility distance
 * and the six in-place mutation operators.
 *
 * The process-wide innovation counter is an explicit number: every operation
 * that assigns innovation markers takes the counter's value before the call
 * (`innov`) and returns its value after it (`innov'`).
 */
module Genomes {
  import opened Genes

  /** A genome as a value: the members of the struct, in declaration order. */
  datatype Genome = Genome(
    connectionGenes: seq<ConnectionGene>,
    nodeGenes: seq<NodeGene>,
    nInputs: nat,
    nOutputs: nat,
    fitness: real,
    adjustedFitness: real,
    c1: real,
    c2: real,
    c3: real,
    mutationWeightStep: real,
    age: nat,
    marked: bool)

  /** A default-constructed genome: empty gene lists and the member initialisers. */
  const Fresh: Genome := Genome([], [], 0, 0, 0.0, 0.0, 1.0, 1.0, 0.4, 0.1, 0, false)

  // ---------------------------------------------------------------------------
  // Structural invariants of a genome

  /** Connection genes are kept in strictly ascending innovation order. */
  predicate InnovationsAscending(cs: seq<ConnectionGene>) {
    forall i, j :: 0 <= i < j < |cs| ==> cs[i].innov < cs[j].innov
  }

  /** Every innovation marker was handed out before the counter reached `next`. */
  predicate InnovationsBelow(cs: seq<ConnectionGene>, next: nat) {
    forall k :: 0 <= k < |cs| ==> cs[k].innov < next
  }

  /** Both endpoints of every connection are node indices. */
  predicate EndpointsBelow(cs: seq<ConnectionGene>, n: nat) {
    forall k :: 0 <= k < |cs| ==> cs[k].inNode < n && cs[k].outNode < n
  }

  /** Node ids are dense: the node at position k has id k. */
  predicate DenseIds(ns: seq<NodeGene>) {
    forall k :: 0 <= k < |ns| ==> ns[k].id == k
  }

  /** No connection leaves and enters the same node. */
  predicate NoSelfLoops(cs: seq<ConnectionGene>) {
    forall k :: 0 <= k < |cs| ==> cs[k].inNode != cs[k].outNode
  }

  /** No two connections join the same pair of nodes, in either direction, whether
      enabled or not. */
  predicate NoTwinLinks(cs: seq<ConnectionGene>) {
    forall i, j :: 0 <= i < j < |cs| ==> !Joins(cs[j], cs[i].inNode, cs[i].outNode)
  }

  /** The invariant every operation of this module keeps, relative to the counter value `next`. */
  predicate WellFormed(g: Genome, next: nat) {
    InnovationsAscending(g.connectionGenes) && InnovationsBelow(g.connectionGenes, next) &&
    EndpointsBelow(g.connectionGenes, |g.nodeGenes|) && DenseIds(g.nodeGenes) &&
    NoSelfLoops(g.connectionGenes) && NoTwinLinks(g.connectionGenes)
  }

  /** Appending a connection between two different nodes that no gene joins yet keeps
      every pair of nodes joined at most once. */
  lemma AppendUnlinked(cs: seq<ConnectionGene>, x: ConnectionGene)
    requires NoSelfLoops(cs) && NoTwinLinks(cs)
    requires x.inNode != x.outNode && !Linked(cs, x.inNode, x.outNode)
    ensures NoSelfLoops(cs + [x]) && NoTwinLinks(cs + [x])
  {
    var ys := cs + [x];
    forall i, j | 0 <= i < j < |ys| ensures !Joins(ys[j], ys[i].inNode, ys[i].outNode) {
      if j == |cs| {
        assert !Joins(cs[i], x.inNode, x.outNode);
      } else {
        assert ys[i] == cs[i] && ys[j] == cs[j];
      }
    }
  }

  /** Appending one gene whose marker is the counter's value keeps a genome well formed
      under the advanced counter. */
  lemma AppendFresh(cs: seq<ConnectionGene>, x: ConnectionGene, next: nat, n: nat)
    requires InnovationsAscending(cs) && InnovationsBelow(cs, next) && EndpointsBelow(cs, n)
    requires x.innov == next && x.inNode < n && x.outNode < n
    ensures InnovationsAscending(cs + [x]) && InnovationsBelow(cs + [x], next + 1)
    ensures EndpointsBelow(cs + [x], n)
  {
  }

  /** Markers below the counter stay below any later counter value. */
  lemma BelowMonotone(cs: seq<ConnectionGene>, next: nat, later: nat)
    requires InnovationsBelow(cs, next) && next <= later
    ensures InnovationsBelow(cs, later)
  {
  }

  /** Ascending markers are pairwise distinct: no two genes of a genome share an innovation. */
  lemma AscendingUnique(cs: seq<ConnectionGene>, i: nat, j: nat)
    requires InnovationsAscending(cs) && i < |cs| && j < |cs| && i != j
    ensures cs[i].innov != cs[j].innov
  {
  }

  // ---------------------------------------------------------------------------
  // Genome::generate

  lemma MulMono(a: nat, b: nat, n: nat)
    requires a <= b
    ensures a * n <= b * n
  {
  }

  /** Quotient and remainder of `q * n + r` by `n` when `r < n`. */
  lemma DivModOf(q: nat, n: nat, r: nat)
    requires r < n
    ensures (q * n + r) / n == q && (q * n + r) % n == r
  {
    var k := q * n + r;
    var d, m := k / n, k % n;
    assert k == d * n + m;
    if d > q {
      MulMono(q + 1, d, n);
    } else if d < q {
      MulMono(d + 1, q, n);
    }
  }

  /** The k-th connection of the minimal genome: from input k / nOutputs to output
      k % nOutputs, weight `weights[k]`, marker `innov + k`, enabled. */
  function MinimalConnection(k: nat, nInputs: nat, nOutputs: nat, innov: nat, weights: seq<real>): ConnectionGene
    requires 0 < nOutputs && k < |weights|
  {
    ConnectionGene(k / nOutputs, nInputs + k % nOutputs, innov + k, weights[k], true)
  }

  /** Position `row * nOutputs + col` of the minimal genome joins input `row` to output `col`. */
  lemma MinimalConnectionAt(row: nat, col: nat, nInputs: nat, nOutputs: nat, innov: nat, weights: seq<real>)
    requires col < nOutputs && row * nOutputs + col < |weights|
    ensures MinimalConnection(row * nOutputs + col, nInputs, nOutputs, innov, weights) ==
              ConnectionGene(row, nInputs + col, innov + row * nOutputs + col, weights[row * nOutputs + col], true)
  {
    DivModOf(row, nOutputs, col);
  }

  /** Two different positions of the minimal genome join different input-output pairs. */
  lemma MinimalConnectionsDistinct(i: nat, j: nat, nInputs: nat, nOutputs: nat, innov: nat, weights: seq<real>)
    requires 0 < nOutputs && i < j < |weights|
    ensures var x, y := MinimalConnection(i, nInputs, nOutputs, innov, weights), MinimalConnection(j, nInputs, nOutputs, innov, weights);
      x.inNode != y.inNode || x.outNode != y.outNode
  {
    assert i == (i / nOutputs) * nOutputs + i % nOutputs;
    assert j == (j / nOutputs) * nOutputs + j % nOutputs;
  }

  /** Every minimal connection leaves an input node and enters an output node. */
  lemma MinimalConnectionEnds(k: nat, nInputs: nat, nOutputs: nat, innov: nat, weights: seq<real>)
    requires 0 < nOutputs && k < |weights| == nInputs * nOutputs
    ensures MinimalConnection(k, nInputs, nOutputs, innov, weights).inNode < nInputs
    ensures nInputs <= MinimalConnection(k, nInputs, nOutputs, innov, weights).outNode < nInputs + nOutputs
  {
    var q := k / nOutputs;
    assert k == q * nOutputs + k % nOutputs;
    if q >= nInputs {
      MulMono(nInputs, q, nOutputs);
    }
  }

  /** The node loops of `generate`: the input nodes, then the output nodes, numbered in order. */
  method MinimalNodes(nInputs: nat, nOutputs: nat) returns (nodes: seq<NodeGene>)
    ensures |nodes| == nInputs + nOutputs
    ensures forall k :: 0 <= k < |nodes| ==> nodes[k] == NodeGene(Linear, if k < nInputs then Input else Output, k)
  {
    nodes := [];
    for i := 0 to nInputs
      invariant |nodes| == i
      invariant forall k :: 0 <= k < i ==> nodes[k] == NodeGene(Linear, Input, k)
    {
      nodes := nodes + [NodeGene(Linear, Input, i)];
    }
    for i := 0 to nOutputs
      invariant |nodes| == nInputs + i
      invariant forall k :: 0 <= k < |nodes| ==>
                  nodes[k] == NodeGene(Linear, if k < nInputs then Input else Output, k)
    {
      nodes := nodes + [NodeGene(Linear, Output, i + nInputs)];
    }
  }

  /** The connection loops of `generate`: input by input, output by output, each
      connection taking the next marker. */
  method MinimalConnections(nInputs: nat, nOutputs: nat, innov: nat, weights: seq<real>)
    returns (conns: seq<ConnectionGene>, innov': nat)
    requires |weights| == nInputs * nOutputs
    ensures |conns| == nInputs * nOutputs && innov' == innov + |conns|
    ensures forall k :: 0 <= k < |conns| ==>
              0 < nOutputs && conns[k] == MinimalConnection(k, nInputs, nOutputs, innov, weights)
  {
    conns := [];
    innov' := innov;
    for i := 0 to nInputs
      invariant |conns| == i * nOutputs && innov' == innov + |conns|
      invariant forall k :: 0 <= k < |conns| ==>
                  0 < nOutputs && conns[k] == MinimalConnection(k, nInputs, nOutputs, innov, weights)
    {
      ghost var row := |conns|;
      MulMono(i + 1, nInputs, nOutputs);
      assert row + nOutputs == (i + 1) * nOutputs;
      for j := 0 to nOutputs
        invariant |conns| == row + j && innov' == innov + |conns|
        invariant forall k :: 0 <= k < |conns| ==>
                    0 < nOutputs && conns[k] == MinimalConnection(k, nInputs, nOutputs, innov, weights)
      {
        MinimalConnectionAt(i, j, nInputs, nOutputs, innov, weights);
        conns := conns + [ConnectionGene(i, j + nInputs, innov', weights[|conns|], true)];
        innov' := innov' + 1;
      }
    }
  }

  /** The layout of the minimal genome whose markers start at `innov`: a default genome
      whose nodes are the inputs then the outputs, all Linear with dense ids, and whose
      connection k is `MinimalConnection(k, ...)`. */
  predicate MinimalGenome(g: Genome, nInputs: nat, nOutputs: nat, innov: nat, weights: seq<real>) {
    g == Fresh.(connectionGenes := g.connectionGenes, nodeGenes := g.nodeGenes,
                nInputs := nInputs, nOutputs := nOutputs) &&
    |g.nodeGenes| == nInputs + nOutputs &&
    (forall k :: 0 <= k < |g.nodeGenes| ==>
       g.nodeGenes[k] == NodeGene(Linear, if k < nInputs then Input else Output, k)) &&
    |g.connectionGenes| == nInputs * nOutputs && |weights| == nInputs * nOutputs &&
    (forall k :: 0 <= k < |g.connectionGenes| ==>
       0 < nOutputs && g.connectionGenes[k] == MinimalConnection(k, nInputs, nOutputs, innov, weights))
  }

  /**
   * The minimal genome: `nInputs` input nodes, then `nOutputs` output nodes, all
   * Linear, and one enabled connection from every input to every output, each
   * with the next innovation marker. `weights` are the drawn weights, in order.
   */
  method Generate(nInputs: nat, nOutputs: nat, innov: nat, weights: seq<real>) returns (g: Genome, innov': nat)
    requires |weights| == nInputs * nOutputs
    requires forall k :: 0 <= k < |weights| ==> -1.0 <= weights[k] < 1.0
    ensures MinimalGenome(g, nInputs, nOutputs, innov, weights)
    ensures innov' == innov + nInputs * nOutputs
    ensures WellFormed(g, innov')
  {
    var nodes := MinimalNodes(nInputs, nOutputs);
    var conns;
    conns, innov' := MinimalConnections(nInputs, nOutputs, innov, weights);
    g := Fresh.(connectionGenes := conns, nodeGenes := nodes, nInputs := nInputs, nOutputs := nOutputs);
    forall k | 0 <= k < |conns|
      ensures conns[k].inNode < nInputs <= conns[k].outNode < |nodes|
    {
      MinimalConnectionEnds(k, nInputs, nOutputs, innov, weights);
    }
    forall i, j | 0 <= i < j < |conns| ensures !Joins(conns[j], conns[i].inNode, conns[i].outNode) {
      MinimalConnectionsDistinct(i, j, nInputs, nOutputs, innov, weights);
    }
    assert DenseIds(nodes);
  }

  // ---------------------------------------------------------------------------
  // Genome::crossover

  /**
   * The gene of `ys` that the linear scan for marker `innov` stops at: scanning
   * from the front, it gives up at the first gene with a larger marker and
   * succeeds at the first gene with an equal one.
   */
  function Match(innov: nat, ys: seq<ConnectionGene>): (m: Option<ConnectionGene>)
    ensures m.Some? ==> m.value in ys && m.value.innov == innov
  {
    if ys == [] then None
    else if innov < ys[0].innov then None
    else if innov == ys[0].innov then Some(ys[0])
    else Match(innov, ys[1..])
  }

  /** On an innovation-ordered list the scan finds a gene exactly when the marker is present. */
  lemma {:induction false} MatchFindsPresent(innov: nat, ys: seq<ConnectionGene>)
    requires InnovationsAscending(ys)
    ensures Match(innov, ys).Some? <==> exists j :: 0 <= j < |ys| && ys[j].innov == innov
  {
    if ys != [] && innov > ys[0].innov {
      assert InnovationsAscending(ys[1..]);
      MatchFindsPresent(innov, ys[1..]);
      if exists j :: 0 <= j < |ys| && ys[j].innov == innov {
        var j :| 0 <= j < |ys| && ys[j].innov == innov;
        assert j > 0 && ys[1..][j - 1].innov == innov;
      }
      if exists j :: 0 <= j < |ys[1..]| && ys[1..][j].innov == innov {
        var j :| 0 <= j < |ys[1..]| && ys[1..][j].innov == innov;
        assert ys[j + 1].innov == innov;
      }
    } else if ys != [] && innov < ys[0].innov {
      forall j | 0 <= j < |ys| ensures ys[j].innov != innov {
        if j > 0 { assert ys[0].innov < ys[j].innov; }
      }
    }
  }

  /** The child's gene for one gene `x` of parent 1: with no partner gene, `x` verbatim;
      otherwise `x` with the mean of both weights when `keepFirst`, else the partner verbatim. */
  function Inherit(x: ConnectionGene, m: Option<ConnectionGene>, keepFirst: bool): ConnectionGene {
    match m
    case None => x
    case Some(y) => if keepFirst then x.(w := (x.w + y.w) / 2.0) else y
  }

  /** The offspring crossover builds: parent 1's nodes and counts, and gene i inherited
      from parent 1's gene i, its partner and coin `keepFirst[i]`. */
  function Crossed(parent1: Genome, parent2: Genome, keepFirst: seq<bool>): (g: Genome)
    requires |keepFirst| == |parent1.connectionGenes|
    ensures |g.connectionGenes| == |parent1.connectionGenes|
  {
    var xs, ys := parent1.connectionGenes, parent2.connectionGenes;
    Fresh.(connectionGenes := seq(|xs|, i requires 0 <= i < |xs| => Inherit(xs[i], Match(xs[i].innov, ys), keepFirst[i])),
           nodeGenes := parent1.nodeGenes, nInputs := parent1.nInputs, nOutputs := parent1.nOutputs)
  }

  /**
   * The offspring of `parent1` and `parent2`. `keepFirst[i]` is the coin drawn
   * for parent 1's i-th gene (`randomf() > .5`); it only matters for matching genes.
   */
  method Crossover(parent1: Genome, parent2: Genome, keepFirst: seq<bool>) returns (offspring: Genome)
    requires |keepFirst| == |parent1.connectionGenes|
    ensures offspring == Fresh.(connectionGenes := offspring.connectionGenes, nodeGenes := parent1.nodeGenes,
                                nInputs := parent1.nInputs, nOutputs := parent1.nOutputs)
    ensures |offspring.connectionGenes| == |parent1.connectionGenes|
    ensures forall i :: 0 <= i < |parent1.connectionGenes| ==>
              offspring.connectionGenes[i] ==
                Inherit(parent1.connectionGenes[i],
                        Match(parent1.connectionGenes[i].innov, parent2.connectionGenes), keepFirst[i])
    ensures offspring == Crossed(parent1, parent2, keepFirst)
  {
    var xs, ys := parent1.connectionGenes, parent2.connectionGenes;
    var children: seq<ConnectionGene> := [];
    for i := 0 to |xs|
      invariant |children| == i
      invariant forall k :: 0 <= k < i ==> children[k] == Inherit(xs[k], Match(xs[k].innov, ys), keepFirst[k])
    {
      var x := xs[i];
      var matching := false;
      var other := x;
      var j := 0;
      while j < |ys|
        invariant 0 <= j <= |ys|
        invariant !matching && x == xs[i] && Match(xs[i].innov, ys) == Match(xs[i].innov, ys[j..])
      {
        var y := ys[j];
        if x.innov < y.innov {
          break;
        }
        if x.innov == y.innov {
          matching := true;
          other := y;
          x := x.(w := (x.w + y.w) / 2.0);
          break;
        }
        assert ys[j..][1..] == ys[j + 1..];
        j := j + 1;
      }
      assert matching ==> Match(xs[i].innov, ys) == Some(other) && x == xs[i].(w := (xs[i].w + other.w) / 2.0);
      assert !matching ==> Match(xs[i].innov, ys) == None && x == xs[i];
      if matching {
        children := children + [if keepFirst[i] then x else other];
      } else {
        children := children + [x];
      }
    }
    offspring := Fresh.(connectionGenes := children, nodeGenes := parent1.nodeGenes,
                        nInputs := parent1.nInputs, nOutputs := parent1.nOutputs);
    assert children == Crossed(parent1, parent2, keepFirst).connectionGenes;
  }

  /** The child carries parent 1's innovation markers, position by position, so it has no
      gene whose marker only parent 2 holds, and it keeps parent 1's gene order. */
  lemma {:induction false} CrossoverKeepsMarkers(parent1: Genome, parent2: Genome, keepFirst: seq<bool>, child: seq<ConnectionGene>)
    requires |keepFirst| == |parent1.connectionGenes| == |child|
    requires forall i :: 0 <= i < |child| ==>
               child[i] == Inherit(parent1.connectionGenes[i],
                                   Match(parent1.connectionGenes[i].innov, parent2.connectionGenes), keepFirst[i])
    ensures forall i :: 0 <= i < |child| ==> child[i].innov == parent1.connectionGenes[i].innov
    ensures forall x :: x in child ==> exists i :: 0 <= i < |parent1.connectionGenes| && parent1.connectionGenes[i].innov == x.innov
  {
    forall i | 0 <= i < |child| ensures child[i].innov == parent1.connectionGenes[i].innov {
      var m := Match(parent1.connectionGenes[i].innov, parent2.connectionGenes);
      assert m.Some? ==> m.value.innov == parent1.connectionGenes[i].innov;
    }
    forall x | x in child
      ensures exists i :: 0 <= i < |parent1.connectionGenes| && parent1.connectionGenes[i].innov == x.innov
    {
      var i :| 0 <= i < |child| && child[i] == x;
      assert parent1.connectionGenes[i].innov == x.innov;
    }
  }

  /** Genes that carry the same marker in two gene lists join the same pair of nodes: a
      marker names one structural innovation, whichever genome holds it. */
  predicate EndpointsAgree(xs: seq<ConnectionGene>, ys: seq<ConnectionGene>) {
    forall i, j :: 0 <= i < |xs| && 0 <= j < |ys| && xs[i].innov == ys[j].innov ==>
      xs[i].inNode == ys[j].inNode && xs[i].outNode == ys[j].outNode
  }

  /** A child of a well-formed parent 1 is well formed under the same counter, provided
      the parents agree on what their shared markers join. */
  lemma CrossoverWellFormed(parent1: Genome, parent2: Genome, keepFirst: seq<bool>, child: Genome, next: nat)
    requires WellFormed(parent1, next)
    requires EndpointsAgree(parent1.connectionGenes, parent2.connectionGenes)
    requires |keepFirst| == |parent1.connectionGenes| == |child.connectionGenes|
    requires child.nodeGenes == parent1.nodeGenes
    requires forall i :: 0 <= i < |child.connectionGenes| ==>
               child.connectionGenes[i] ==
                 Inherit(parent1.connectionGenes[i],
                         Match(parent1.connectionGenes[i].innov, parent2.connectionGenes), keepFirst[i])
    ensures WellFormed(child, next)
    ensures forall k :: 0 <= k < |child.connectionGenes| ==>
              child.connectionGenes[k].inNode == parent1.connectionGenes[k].inNode &&
              child.connectionGenes[k].outNode == parent1.connectionGenes[k].outNode
  {
    CrossoverKeepsMarkers(parent1, parent2, keepFirst, child.connectionGenes);
    forall k | 0 <= k < |child.connectionGenes|
      ensures child.connectionGenes[k].inNode == parent1.connectionGenes[k].inNode
      ensures child.connectionGenes[k].outNode == parent1.connectionGenes[k].outNode
    {
      var m := Match(parent1.connectionGenes[k].innov, parent2.connectionGenes);
      if m.Some? {
        var j :| 0 <= j < |parent2.connectionGenes| && parent2.connectionGenes[j] == m.value;
        assert parent1.connectionGenes[k].innov == parent2.connectionGenes[j].innov;
      }
    }
    SameStructureLinks(parent1.connectionGenes, child.connectionGenes);
  }

  // ---------------------------------------------------------------------------
  // Genome::speciation_coeff

  /** What the lockstep walk over two connection lists counts: matching genes,
      disjoint genes, the summed weight gap of matching genes, and how far it got
      into each list (`i` into the first, `j` into the second). */
  datatype Alignment = Alignment(matches: nat, disjoints: nat, weightGap: real, i: nat, j: nat)

  /** Sum of two walks, the first over a prefix and the second over the rest. */
  function Then(p: Alignment, q: Alignment): Alignment {
    Alignment(p.matches + q.matches, p.disjoints + q.disjoints, p.weightGap + q.weightGap, p.i + q.i, p.j + q.j)
  }

  /**
   * The lockstep walk from position `i` of `a` and `j` of `b`: equal markers match
   * and advance both lists; otherwise the gene with the smaller marker is disjoint
   * and only its list advances; the walk stops when either list is used up.
   */
  function AlignFrom(a: seq<ConnectionGene>, b: seq<ConnectionGene>, i: nat, j: nat): Alignment
    requires i <= |a| && j <= |b|
    decreases |a| - i + |b| - j
  {
    if i == |a| || j == |b| then Alignment(0, 0, 0.0, 0, 0)
    else if a[i].innov == b[j].innov then
      Then(Alignment(1, 0, Abs(a[i].w - b[j].w), 1, 1), AlignFrom(a, b, i + 1, j + 1))
    else if a[i].innov > b[j].innov then
      Then(Alignment(0, 1, 0.0, 0, 1), AlignFrom(a, b, i, j + 1))
    else
      Then(Alignment(0, 1, 0.0, 1, 0), AlignFrom(a, b, i + 1, j))
  }

  /** The whole walk over two connection lists. */
  function Align(a: seq<ConnectionGene>, b: seq<ConnectionGene>): Alignment {
    AlignFrom(a, b, 0, 0)
  }

  /** The walk consumes each list at most once, stops at the end of one of them, and
      takes two genes per match and one per disjoint gene. */
  lemma {:induction false} AlignCounts(a: seq<ConnectionGene>, b: seq<ConnectionGene>, i: nat, j: nat)
    requires i <= |a| && j <= |b|
    ensures var r := AlignFrom(a, b, i, j);
      i + r.i <= |a| && j + r.j <= |b| && (i + r.i == |a| || j + r.j == |b|) &&
      r.i + r.j == 2 * r.matches + r.disjoints &&
      r.matches <= Min(|a| - i, |b| - j) && r.weightGap >= 0.0
    decreases |a| - i + |b| - j
  {
    if i == |a| || j == |b| {
    } else if a[i].innov == b[j].innov {
      AlignCounts(a, b, i + 1, j + 1);
    } else if a[i].innov > b[j].innov {
      AlignCounts(a, b, i, j + 1);
    } else {
      AlignCounts(a, b, i + 1, j);
    }
  }

  /** The walk treats its two lists alike: swapping them swaps `i` and `j` and nothing else. */
  lemma {:induction false} AlignSymmetric(a: seq<ConnectionGene>, b: seq<ConnectionGene>, i: nat, j: nat)
    requires i <= |a| && j <= |b|
    ensures var r := AlignFrom(a, b, i, j); AlignFrom(b, a, j, i) == r.(i := r.j, j := r.i)
    decreases |a| - i + |b| - j
  {
    if i == |a| || j == |b| {
    } else if a[i].innov == b[j].innov {
      AlignSymmetric(a, b, i + 1, j + 1);
      assert Abs(a[i].w - b[j].w) == Abs(b[j].w - a[i].w);
    } else if a[i].innov > b[j].innov {
      AlignSymmetric(a, b, i, j + 1);
    } else {
      AlignSymmetric(a, b, i + 1, j);
    }
  }

  /** Summed weight gap of two equally long lists, gene by gene from position k. */
  function WeightGap(a: seq<ConnectionGene>, b: seq<ConnectionGene>, k: nat): real
    requires |a| == |b| && k <= |a|
    decreases |a| - k
  {
    if k == |a| then 0.0 else Abs(a[k].w - b[k].w) + WeightGap(a, b, k + 1)
  }

  /** When both lists carry the same markers in the same order, every gene matches. */
  lemma {:induction false} AlignSameMarkers(a: seq<ConnectionGene>, b: seq<ConnectionGene>, k: nat)
    requires |a| == |b| && k <= |a| && forall m :: 0 <= m < |a| ==> a[m].innov == b[m].innov
    ensures AlignFrom(a, b, k, k) == Alignment(|a| - k, 0, WeightGap(a, b, k), |a| - k, |a| - k)
    decreases |a| - k
  {
    if k < |a| {
      AlignSameMarkers(a, b, k + 1);
    }
  }

  /** The compatibility distance; `NaN` stands for the non-finite float the division by
      zero produces when no gene matches. */
  datatype Distance = Finite(value: real) | NaN

  /**
   * The distance formula applied to a walk. The node-count factor is the larger
   * node count times (not divided by) the smaller one, as the source's operator
   * precedence makes it; the coefficients are those of `a`.
   */
  function DistanceOf(a: Genome, b: Genome, r: Alignment): Distance {
    Formula(Max(|a.connectionGenes|, |b.connectionGenes|),
            (|a.connectionGenes| - r.i) + (|b.connectionGenes| - r.j),
            Max(|a.nodeGenes|, |b.nodeGenes|) * Min(|a.nodeGenes|, |b.nodeGenes|),
            r.disjoints, r.matches, r.weightGap, a.c1, a.c2, a.c3)
  }

  /** `mult * (c1 * excess + c2 * disjoints) / n + c3 * weightGap / matches`, in float
      terms `NaN` when a divisor is zero. */
  function Formula(n: int, excess: int, mult: int, disjoints: nat, matches: nat, weightGap: real,
                   c1: real, c2: real, c3: real): Distance {
    if n == 0 || matches == 0 then NaN
    else Finite(mult as real * (c1 * excess as real + c2 * disjoints as real) / n as real
                + c3 * weightGap / matches as real)
  }

  /** The lockstep loop of the distance: the counters it ends with are those of the walk. */
  method Walk(xs: seq<ConnectionGene>, ys: seq<ConnectionGene>) returns (r: Alignment)
    ensures r == Align(xs, ys)
    ensures r.i + r.j == 2 * r.matches + r.disjoints
  {
    var disjoints, matches := 0, 0;
    var gap := 0.0;
    var i, j := 0, 0;
    while i < |xs| && j < |ys|
      invariant 0 <= i <= |xs| && 0 <= j <= |ys|
      invariant i + j == 2 * matches + disjoints
      invariant Then(Alignment(matches, disjoints, gap, i, j), AlignFrom(xs, ys, i, j)) == Align(xs, ys)
      decreases |xs| - i + |ys| - j
    {
      var x, y := xs[i], ys[j];
      if x.innov == y.innov {
        gap := gap + Abs(x.w - y.w);
        matches := matches + 1;
        i, j := i + 1, j + 1;
      }
      if x.innov > y.innov {
        disjoints := disjoints + 1;
        j := j + 1;
      }
      if y.innov > x.innov {
        disjoints := disjoints + 1;
        i := i + 1;
      }
    }
    r := Alignment(matches, disjoints, gap, i, j);
  }

  /** The compatibility distance of `a` and `b`: the lockstep walk, then the formula. */
  method SpeciationCoeff(a: Genome, b: Genome) returns (d: Distance)
    ensures d == DistanceOf(a, b, Align(a.connectionGenes, b.connectionGenes))
    ensures d == NaN <==> Align(a.connectionGenes, b.connectionGenes).matches == 0
  {
    var n := Max(|a.connectionGenes|, |b.connectionGenes|);
    var r := Walk(a.connectionGenes, b.connectionGenes);
    var excess := 0;
    excess := excess + (|a.connectionGenes| - r.i);
    excess := excess + (|b.connectionGenes| - r.j);
    var mult := Max(|a.nodeGenes|, |b.nodeGenes|) * Min(|a.nodeGenes|, |b.nodeGenes|);
    AlignCounts(a.connectionGenes, b.connectionGenes, 0, 0);
    d := Formula(n, excess, mult, r.disjoints, r.matches, r.weightGap, a.c1, a.c2, a.c3);
  }

  /** With equal coefficients the distance does not depend on the order of its arguments. */
  lemma DistanceSymmetric(a: Genome, b: Genome)
    requires a.c1 == b.c1 && a.c2 == b.c2 && a.c3 == b.c3
    ensures DistanceOf(a, b, Align(a.connectionGenes, b.connectionGenes)) ==
            DistanceOf(b, a, Align(b.connectionGenes, a.connectionGenes))
  {
    AlignSymmetric(a.connectionGenes, b.connectionGenes, 0, 0);
    var r := Align(a.connectionGenes, b.connectionGenes);
    assert Max(|a.connectionGenes|, |b.connectionGenes|) == Max(|b.connectionGenes|, |a.connectionGenes|);
    assert Max(|a.nodeGenes|, |b.nodeGenes|) == Max(|b.nodeGenes|, |a.nodeGenes|);
    assert Min(|a.nodeGenes|, |b.nodeGenes|) == Min(|b.nodeGenes|, |a.nodeGenes|);
    var r' := Align(b.connectionGenes, a.connectionGenes);
    assert r'.matches == r.matches && r'.disjoints == r.disjoints && r'.weightGap == r.weightGap;
    assert r'.i == r.j && r'.j == r.i;
    assert (|a.connectionGenes| - r.i) + (|b.connectionGenes| - r.j) ==
           (|b.connectionGenes| - r'.i) + (|a.connectionGenes| - r'.j);
  }

  /** Two genomes with the same markers in the same order differ only by their weights:
      the distance is `c3` times the mean weight gap. */
  lemma DistanceOfSameStructure(a: Genome, b: Genome)
    requires |a.connectionGenes| == |b.connectionGenes| > 0
    requires forall k :: 0 <= k < |a.connectionGenes| ==> a.connectionGenes[k].innov == b.connectionGenes[k].innov
    ensures DistanceOf(a, b, Align(a.connectionGenes, b.connectionGenes)) ==
            Finite(a.c3 * WeightGap(a.connectionGenes, b.connectionGenes, 0) / |a.connectionGenes| as real)
  {
    AlignSameMarkers(a.connectionGenes, b.connectionGenes, 0);
    var n := |a.connectionGenes|;
    var mult := (Max(|a.nodeGenes|, |b.nodeGenes|) * Min(|a.nodeGenes|, |b.nodeGenes|)) as real;
    assert Max(n, n) == n && (n - n) + (n - n) == 0;
    assert mult * (a.c1 * 0 as real + a.c2 * 0 as real) / n as real == 0.0;
  }

  // ---------------------------------------------------------------------------
  // The mutation operators

  /** Whether gene `x` joins nodes `a` and `b`, in either direction. */
  predicate Joins(x: ConnectionGene, a: nat, b: nat) {
    (x.inNode == a && x.outNode == b) || (x.inNode == b && x.outNode == a)
  }

  /** Whether some gene of `cs` already joins `a` and `b`, in either direction. */
  predicate Linked(cs: seq<ConnectionGene>, a: nat, b: nat) {
    exists k :: 0 <= k < |cs| && Joins(cs[k], a, b)
  }

  /** The directions the connection mutation corrects by swapping the endpoints. */
  predicate MustReverse(from: Kind, to: Kind) {
    (from == Hidden && to == Input) || (from == Output && to == Hidden) || (from == Output && to == Input)
  }

  /** The gene the connection mutation adds between drawn nodes `a` and `b`. */
  function Oriented(ns: seq<NodeGene>, a: nat, b: nat, innov: nat, w: real): (x: ConnectionGene)
    requires a < |ns| && b < |ns|
    ensures {x.inNode, x.outNode} == {a, b}
    ensures !MustReverse(ns[x.inNode].kind, ns[x.outNode].kind)
  {
    var reversed := MustReverse(ns[a].kind, ns[b].kind);
    ConnectionGene(if reversed then b else a, if reversed then a else b, innov, w, true)
  }

  /** Two gene lists with the same markers and endpoints, position by position. */
  predicate SameStructure(xs: seq<ConnectionGene>, ys: seq<ConnectionGene>) {
    |xs| == |ys| &&
    forall k :: 0 <= k < |xs| ==>
      xs[k].innov == ys[k].innov && xs[k].inNode == ys[k].inNode && xs[k].outNode == ys[k].outNode
  }

  /** The pairs of nodes a gene list joins depend on its structure alone. */
  lemma SameStructureLinks(xs: seq<ConnectionGene>, ys: seq<ConnectionGene>)
    requires SameStructure(xs, ys) && NoSelfLoops(xs) && NoTwinLinks(xs)
    ensures NoSelfLoops(ys) && NoTwinLinks(ys)
  {
    forall i, j | 0 <= i < j < |ys| ensures !Joins(ys[j], ys[i].inNode, ys[i].outNode) {
      assert !Joins(xs[j], xs[i].inNode, xs[i].outNode);
    }
  }

  /** Changing weights, enabled flags or activations keeps a genome well formed. */
  lemma SameStructureWellFormed(g: Genome, h: Genome, next: nat)
    requires WellFormed(g, next) && SameStructure(g.connectionGenes, h.connectionGenes)
    requires |g.nodeGenes| == |h.nodeGenes|
    requires forall k :: 0 <= k < |g.nodeGenes| ==> g.nodeGenes[k].id == h.nodeGenes[k].id
    ensures WellFormed(h, next)
  {
    SameStructureLinks(g.connectionGenes, h.connectionGenes);
  }

  /** The genome `add_node_mutation` leaves when it splits gene `draw` and the counter
      stands at `innov`. */
  function Split(g: Genome, draw: nat, innov: nat): (h: Genome)
    requires draw < |g.connectionGenes|
    ensures |h.nodeGenes| == |g.nodeGenes| + 1 && |h.connectionGenes| == |g.connectionGenes| + 2
  {
    var c, id := g.connectionGenes[draw], |g.nodeGenes|;
    g.(nodeGenes := g.nodeGenes + [NodeGene(Relu, Hidden, id)],
       connectionGenes := g.connectionGenes[draw := c.(enabled := false)] +
         [ConnectionGene(c.inNode, id, innov, 1.0, true), ConnectionGene(id, c.outNode, innov + 1, c.w, true)])
  }

  /** One genome whose gene lists the mutation operators change in place. */
  class MutableGenome {
    var connectionGenes: seq<ConnectionGene>
    var nodeGenes: seq<NodeGene>
    var nInputs: nat
    var nOutputs: nat
    var fitness: real
    var adjustedFitness: real
    var c1: real
    var c2: real
    var c3: real
    var mutationWeightStep: real
    var age: nat
    var marked: bool

    /** The genome this object currently holds, as a value. */
    function Value(): Genome
      reads this
    {
      Genome(connectionGenes, nodeGenes, nInputs, nOutputs, fitness, adjustedFitness,
             c1, c2, c3, mutationWeightStep, age, marked)
    }

    /** A copy of `g` that can be mutated in place. */
    constructor (g: Genome)
      ensures Value() == g
    {
      connectionGenes, nodeGenes := g.connectionGenes, g.nodeGenes;
      nInputs, nOutputs := g.nInputs, g.nOutputs;
      fitness, adjustedFitness := g.fitness, g.adjustedFitness;
      c1, c2, c3 := g.c1, g.c2, g.c3;
      mutationWeightStep, age, marked := g.mutationWeightStep, g.age, g.marked;
    }

    /**
     * Connects node `drawIn` (drawn from all nodes) to node
     * `max(nInputs, drawIn) + drawOut` (drawn from that index on), with weight `w`.
     * A self-loop or a pair of nodes already joined in either direction leaves the
     * genome and the counter as they were; a backward Hidden->Input, Output->Hidden
     * or Output->Input draw is stored the other way round.
     */
    method AddConnectionMutation(innov: nat, drawIn: nat, drawOut: nat, w: real) returns (innov': nat)
      requires nInputs < |nodeGenes|
      requires drawIn < |nodeGenes| && drawOut < |nodeGenes| - Max(nInputs, drawIn)
      requires -1.0 <= w < 1.0
      modifies this
      ensures Value() == old(Value()).(connectionGenes := connectionGenes)
      ensures var a, b := drawIn, Max(nInputs, drawIn) + drawOut;
        if a == b || Linked(old(connectionGenes), a, b) then
          connectionGenes == old(connectionGenes) && innov' == innov
        else
          connectionGenes == old(connectionGenes) + [Oriented(nodeGenes, a, b, innov, w)] && innov' == innov + 1
      ensures WellFormed(old(Value()), innov) ==> WellFormed(Value(), innov')
    {
      var source := drawIn;
      var target := Max(nInputs, drawIn) + drawOut;
      var nodeIn, nodeOut := nodeGenes[source], nodeGenes[target];
      innov' := innov;
      if source == target {
        return;
      }
      for k := 0 to |connectionGenes|
        invariant forall m :: 0 <= m < k ==> !Joins(connectionGenes[m], source, target)
      {
        var x := connectionGenes[k];
        if (x.inNode == source && x.outNode == target) || (x.inNode == target && x.outNode == source) {
          return;
        }
      }
      var reversed :=
        (nodeIn.kind == Hidden && nodeOut.kind == Input) ||
        (nodeIn.kind == Output && nodeOut.kind == Hidden) ||
        (nodeIn.kind == Output && nodeOut.kind == Input);
      var gene := ConnectionGene(if reversed then target else source, if reversed then source else target,
                                 innov, w, true);
      innov' := innov + 1;
      ghost var before := connectionGenes;
      connectionGenes := connectionGenes + [gene];
      if WellFormed(old(Value()), innov) {
        AppendFresh(before, gene, innov, |nodeGenes|);
        assert !Linked(before, gene.inNode, gene.outNode) by {
          forall m | 0 <= m < |before| ensures !Joins(before[m], gene.inNode, gene.outNode) {
            assert !Joins(before[m], source, target);
          }
        }
        AppendUnlinked(before, gene);
      }
    }

    /**
     * Splits gene `draw` through a new Hidden/Relu node whose id is the old node
     * count: the gene is disabled, and two enabled genes are appended, into the new
     * node with weight 1 and out of it with the old weight, marked `innov` and `innov + 1`.
     */
    method AddNodeMutation(innov: nat, draw: nat) returns (innov': nat)
      requires draw < |connectionGenes|
      modifies this
      ensures var c, id := old(connectionGenes[draw]), old(|nodeGenes|);
        nodeGenes == old(nodeGenes) + [NodeGene(Relu, Hidden, id)] &&
        connectionGenes == old(connectionGenes)[draw := c.(enabled := false)] +
                           [ConnectionGene(c.inNode, id, innov, 1.0, true), ConnectionGene(id, c.outNode, innov + 1, c.w, true)]
      ensures innov' == innov + 2
      ensures Value() == old(Value()).(connectionGenes := connectionGenes, nodeGenes := nodeGenes)
      ensures Value() == Split(old(Value()), draw, innov)
      ensures WellFormed(old(Value()), innov) ==> WellFormed(Value(), innov')
    {
      var connection := connectionGenes[draw];
      connectionGenes := connectionGenes[draw := connection.(enabled := false)];
      var newNode := NodeGene(Relu, Hidden, |nodeGenes|);
      var first := ConnectionGene(connection.inNode, newNode.id, innov, 1.0, true);
      var second := ConnectionGene(newNode.id, connection.outNode, innov + 1, connection.w, true);
      innov' := innov + 2;
      ghost var disabled := connectionGenes;
      nodeGenes := nodeGenes + [newNode];
      connectionGenes := connectionGenes + [first, second];
      if WellFormed(old(Value()), innov) {
        assert SameStructure(old(connectionGenes), disabled);
        AppendFresh(disabled, first, innov, |nodeGenes|);
        AppendFresh(disabled + [first], second, innov + 1, |nodeGenes|);
        SameStructureLinks(old(connectionGenes), disabled);
        assert connection.inNode != connection.outNode;
        AppendUnlinked(disabled, first);
        AppendUnlinked(disabled + [first], second);
        assert disabled + [first] + [second] == connectionGenes;
      }
    }

    /** Adds `delta` (a normal draw) to the weight of gene `i`; nothing else changes. */
    method WeightMutation(i: nat, delta: real)
      requires i < |connectionGenes|
      modifies this
      ensures connectionGenes == old(connectionGenes)[i := old(connectionGenes[i]).(w := old(connectionGenes[i]).w + delta)]
      ensures Value() == old(Value()).(connectionGenes := connectionGenes)
      ensures SameStructure(old(connectionGenes), connectionGenes)
    {
      connectionGenes := connectionGenes[i := connectionGenes[i].(w := connectionGenes[i].w + delta)];
    }

    /** Sets the activation of node `i` to the one drawn (`draw < 4`); nothing else changes. */
    method ActivationFuncMutation(i: nat, draw: nat)
      requires i < |nodeGenes| && draw < ActivationCount
      modifies this
      ensures nodeGenes == old(nodeGenes)[i := old(nodeGenes[i]).(func := ActivationOf(draw))]
      ensures Value() == old(Value()).(nodeGenes := nodeGenes)
    {
      var x := ActivationOf(draw);
      nodeGenes := nodeGenes[i := nodeGenes[i].(func := x)];
    }

    /** Disables gene `i` without deleting it; nothing else changes. */
    method RemoveConnectionMutation(i: nat)
      requires i < |connectionGenes|
      modifies this
      ensures connectionGenes == old(connectionGenes)[i := old(connectionGenes[i]).(enabled := false)]
      ensures Value() == old(Value()).(connectionGenes := connectionGenes)
      ensures SameStructure(old(connectionGenes), connectionGenes)
    {
      connectionGenes := connectionGenes[i := connectionGenes[i].(enabled := false)];
    }

    /** Node deletion is not implemented: the operator leaves the genome as it is. */
    method DelNodeMutation(i: nat)
      ensures Value() == old(Value())
    {
    }
  }
}
