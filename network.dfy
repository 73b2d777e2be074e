/**
 * The phenotype: a genome compiled into a node table and per-node incoming
 * link lists, evaluated by a bounded relaxation.
 *
 * The logistic curve `1 / (1 + e^-x)` that every node applies is a parameter
 * `logistic`; floating-point exponentiation is not modelled.
 */
module Networks {
  import G = Genes
  import Genomes
  import Sorting

  /** The phenotype's activation enumeration, in declaration order. */
  datatype NodeActivation = Sig | Linear | Tanh | Relu | Sign | Cos | Sin | Mult | Add

  datatype NodeKind = Simple | LSTM

  /** A phenotype node: its scratch state (`activation`, `activesum`, `activated`)
      and its configuration (`func`, `kind`). */
  datatype Node = Node(activation: real, activesum: real, func: NodeActivation, kind: NodeKind, activated: bool)

  /** An incoming link: source node index and weight. */
  datatype Link = Link(inNode: nat, w: real)

  // ---------------------------------------------------------------------------
  // Node::apply

  /** The activation function. The source returns the logistic value before its
      switch on `act`, so the activation argument never matters. */
  function Apply(x: real, act: NodeActivation, logistic: real -> real): real {
    logistic(x)
  }

  lemma ApplyIgnoresActivation(x: real, a: NodeActivation, b: NodeActivation, logistic: real -> real)
    ensures Apply(x, a, logistic) == Apply(x, b, logistic) == logistic(x)
  {
  }

  // ---------------------------------------------------------------------------
  // Compilation (Network::generate)

  function GeneActivationName(a: G.Activation): string {
    match a
    case Relu => "Relu"
    case Linear => "Linear"
    case Sig => "Sig"
    case Sign => "Sign"
  }

  function NodeActivationName(a: NodeActivation): string {
    match a
    case Sig => "Sig"
    case Linear => "Linear"
    case Tanh => "Tanh"
    case Relu => "Relu"
    case Sign => "Sign"
    case Cos => "Cos"
    case Sin => "Sin"
    case Mult => "Mult"
    case Add => "Add"
  }

  /** The genome activation becomes the phenotype activation of the same name. */
  function ToNodeActivation(a: G.Activation): (r: NodeActivation)
    ensures NodeActivationName(r) == GeneActivationName(a)
  {
    match a
    case Relu => Relu
    case Linear => Linear
    case Sig => Sig
    case Sign => Sign
  }

  /** A genome activation is recovered from its phenotype activation, so no two genome
      activations are compiled alike. */
  lemma ToNodeActivationInjective(a: G.Activation, b: G.Activation)
    requires ToNodeActivation(a) == ToNodeActivation(b)
    ensures a == b
  {
    assert GeneActivationName(a) == GeneActivationName(b);
  }

  /** A phenotype node compiled from a node gene: idle scratch state, LSTM kind kept,
      every other kind Simple. */
  function Compile(x: G.NodeGene): (n: Node)
    ensures n.kind == LSTM <==> x.kind == G.LSTM
    ensures Idle(n) && NodeActivationName(n.func) == GeneActivationName(x.func)
  {
    Node(0.0, 0.0, ToNodeActivation(x.func), if x.kind == G.LSTM then LSTM else Simple, false)
  }

  /** A node between evaluations: all scratch state zero/false. */
  predicate Idle(n: Node) {
    n.activation == 0.0 && n.activesum == 0.0 && !n.activated
  }

  /** Node genes ordered by ascending id (sorting by descending negated id). */
  function ById(ns: seq<G.NodeGene>): (r: seq<G.NodeGene>)
    ensures multiset(r) == multiset(ns) && |r| == |ns|
    ensures forall i, j :: 0 <= i < j < |r| ==> r[i].id <= r[j].id
  {
    var r := Sorting.SortDescending(ns, (x: G.NodeGene) => -(x.id as real));
    assert forall i, j :: 0 <= i < j < |r| ==> -(r[i].id as real) >= -(r[j].id as real);
    r
  }

  /** With dense ids the sort leaves the node genes where they are. */
  lemma ByIdDense(ns: seq<G.NodeGene>)
    requires Genomes.DenseIds(ns)
    ensures ById(ns) == ns
  {
    Sorting.SortDescendingSorted(ns, (x: G.NodeGene) => -(x.id as real));
  }

  /** The number of node genes of kind `k`. */
  function CountKind(ns: seq<G.NodeGene>, k: G.Kind): (c: nat)
    ensures c <= |ns|
  {
    if ns == [] then 0 else CountKind(ns[..|ns| - 1], k) + (if ns[|ns| - 1].kind == k then 1 else 0)
  }

  /** Inputs and outputs together never outnumber the nodes. */
  lemma {:induction false} CountInputsOutputs(ns: seq<G.NodeGene>)
    ensures CountKind(ns, G.Input) + CountKind(ns, G.Output) <= |ns|
  {
    if ns != [] {
      CountInputsOutputs(ns[..|ns| - 1]);
    }
  }

  /** The links into node `k`: the enabled genes with `outNode == k`, in genome order,
      as (source, weight) pairs. */
  function Incoming(cs: seq<G.ConnectionGene>, k: nat): seq<Link> {
    if cs == [] then []
    else
      var x := cs[|cs| - 1];
      Incoming(cs[..|cs| - 1], k) + (if x.enabled && x.outNode == k then [Link(x.inNode, x.w)] else [])
  }

  /** A link into `k` is exactly an enabled gene into `k`, weight and source kept. */
  lemma {:induction false} IncomingExact(cs: seq<G.ConnectionGene>, k: nat, l: Link)
    ensures l in Incoming(cs, k) <==>
            exists m :: 0 <= m < |cs| && cs[m].enabled && cs[m].outNode == k &&
                        l == Link(cs[m].inNode, cs[m].w)
  {
    if cs != [] {
      var init := cs[..|cs| - 1];
      IncomingExact(init, k, l);
      if exists m :: 0 <= m < |init| && init[m].enabled && init[m].outNode == k && l == Link(init[m].inNode, init[m].w) {
        var m :| 0 <= m < |init| && init[m].enabled && init[m].outNode == k && l == Link(init[m].inNode, init[m].w);
        assert cs[m] == init[m];
      }
      if exists m :: 0 <= m < |cs| && cs[m].enabled && cs[m].outNode == k && l == Link(cs[m].inNode, cs[m].w) {
        var m :| 0 <= m < |cs| && cs[m].enabled && cs[m].outNode == k && l == Link(cs[m].inNode, cs[m].w);
        if m < |init| {
          assert init[m] == cs[m];
        }
      }
    }
  }

  /** Every link source is a source of some gene of the genome. */
  lemma {:induction false} IncomingSources(cs: seq<G.ConnectionGene>, k: nat, n: nat)
    requires Genomes.EndpointsBelow(cs, n)
    ensures forall l :: l in Incoming(cs, k) ==> l.inNode < n
  {
    forall l | l in Incoming(cs, k) ensures l.inNode < n {
      IncomingExact(cs, k, l);
    }
  }

  // ---------------------------------------------------------------------------
  // Evaluation (Network::compute), as functions of the node table

  /** The table once the first `count` inputs are seeded with their values and marked activated. */
  function Seed(ns: seq<Node>, inputs: seq<real>, count: nat): (r: seq<Node>)
    requires count <= |ns| && count <= |inputs|
    ensures |r| == |ns|
  {
    seq(|ns|, k requires 0 <= k < |ns| =>
      if k < count then ns[k].(activation := inputs[k], activesum := inputs[k], activated := true) else ns[k])
  }

  /** Node `i` after reading link `l`: an activated source adds `activation * w` to its
      sum, any other source marks it not activated. */
  function ReadLink(ns: seq<Node>, i: nat, l: Link): (r: seq<Node>)
    requires i < |ns| && l.inNode < |ns|
    ensures |r| == |ns|
  {
    if ns[l.inNode].activated then ns[i := ns[i].(activesum := ns[i].activesum + ns[l.inNode].activation * l.w)]
    else ns[i := ns[i].(activated := false)]
  }

  predicate SourcesBelow(ls: seq<Link>, n: nat) {
    forall k :: 0 <= k < |ls| ==> ls[k].inNode < n
  }

  /** Node `i` after reading the links `ls` in order. */
  function ReadLinks(ns: seq<Node>, i: nat, ls: seq<Link>): (r: seq<Node>)
    requires i < |ns| && SourcesBelow(ls, |ns|)
    ensures |r| == |ns|
  {
    if ls == [] then ns else ReadLink(ReadLinks(ns, i, ls[..|ls| - 1]), i, ls[|ls| - 1])
  }

  /** Node `i` is cleared (sum zero, provisionally activated) and then reads its links. */
  function Feed(ns: seq<Node>, i: nat, ls: seq<Link>): (r: seq<Node>)
    requires i < |ns| && SourcesBelow(ls, |ns|)
    ensures |r| == |ns|
  {
    ReadLinks(ns[i := ns[i].(activesum := 0.0, activated := true)], i, ls)
  }

  predicate LinksBelow(links: seq<seq<Link>>, n: nat) {
    forall k :: 0 <= k < |links| ==> SourcesBelow(links[k], n)
  }

  /** The first half of a pass: nodes `lo .. hi-1` are fed one after the other, each
      seeing the flags its predecessors in this pass have just set. */
  function FeedRange(ns: seq<Node>, links: seq<seq<Link>>, lo: nat, hi: nat): (r: seq<Node>)
    requires hi <= |ns| == |links| && LinksBelow(links, |ns|)
    ensures |r| == |ns|
  {
    if hi <= lo then ns else Feed(FeedRange(ns, links, lo, hi - 1), hi - 1, links[hi - 1])
  }

  /** A node of the second half of a pass: an activated node applies the activation to its sum. */
  function Fire(n: Node, logistic: real -> real): Node {
    if n.activated then n.(activation := Apply(n.activesum, n.func, logistic)) else n
  }

  /** The second half of a pass over the non-input nodes. */
  function FireAll(ns: seq<Node>, nInputs: nat, logistic: real -> real): (r: seq<Node>)
    ensures |r| == |ns|
  {
    seq(|ns|, k requires 0 <= k < |ns| => if k < nInputs then ns[k] else Fire(ns[k], logistic))
  }

  /** One relaxation pass. */
  function Pass(ns: seq<Node>, links: seq<seq<Link>>, nInputs: nat, logistic: real -> real): (r: seq<Node>)
    requires |ns| == |links| && LinksBelow(links, |ns|)
    ensures |r| == |ns|
  {
    FireAll(FeedRange(ns, links, nInputs, |ns|), nInputs, logistic)
  }

  /** Both tables hold the same nodes up to scratch state. */
  predicate SameConfig(a: seq<Node>, b: seq<Node>) {
    |a| == |b| && forall k :: 0 <= k < |a| ==> a[k].func == b[k].func && a[k].kind == b[k].kind
  }

  /** Every non-input node is activated. */
  predicate Settled(ns: seq<Node>, nInputs: nat) {
    forall k :: nInputs <= k < |ns| ==> ns[k].activated
  }

  /** The maximum number of passes after the first one. */
  const ExtraPasses: nat := 20

  /** What the loop does after a pass that leaves the table `ns`, `done` further
      passes having been made: stop when settled or out of budget, else pass again.
      The result is the final table and the number of passes made after the first. */
  function Continue(ns: seq<Node>, links: seq<seq<Link>>, nInputs: nat, logistic: real -> real, done: nat): (r: (seq<Node>, nat))
    requires |ns| == |links| && LinksBelow(links, |ns|)
    ensures |r.0| == |ns|
    decreases ExtraPasses - done
  {
    if Settled(ns, nInputs) || done >= ExtraPasses then (ns, done)
    else Continue(Pass(ns, links, nInputs, logistic), links, nInputs, logistic, done + 1)
  }

  /** The relaxation: the first pass, then `Continue`. */
  function Relax(ns: seq<Node>, links: seq<seq<Link>>, nInputs: nat, logistic: real -> real): (r: (seq<Node>, nat))
    requires |ns| == |links| && LinksBelow(links, |ns|)
    ensures |r.0| == |ns|
  {
    Continue(Pass(ns, links, nInputs, logistic), links, nInputs, logistic, 0)
  }

  /** The values `compute` returns for `inputs`, starting from the table `ns`. */
  function Evaluate(ns: seq<Node>, links: seq<seq<Link>>, nInputs: nat, nOutputs: nat,
                    inputs: seq<real>, logistic: real -> real): (out: seq<real>)
    requires |ns| == |links| && LinksBelow(links, |ns|)
    requires nInputs + nOutputs <= |ns| && nInputs <= |inputs|
    ensures |out| == nOutputs
  {
    var final := Relax(Seed(ns, inputs, nInputs), links, nInputs, logistic).0;
    seq(nOutputs, k requires 0 <= k < nOutputs => final[nInputs + k].activation)
  }

  /** The table after `compute` has reset every node's scratch state. */
  function Reset(ns: seq<Node>): (r: seq<Node>)
    ensures |r| == |ns| && forall k :: 0 <= k < |r| ==> Idle(r[k])
  {
    seq(|ns|, k requires 0 <= k < |ns| => ns[k].(activation := 0.0, activesum := 0.0, activated := false))
  }

  // ---------------------------------------------------------------------------
  // Properties of the relaxation

  /** The loop makes at most 21 passes, and it stops early only once settled. */
  lemma {:induction false} ContinueBound(ns: seq<Node>, links: seq<seq<Link>>, nInputs: nat, logistic: real -> real, done: nat)
    requires |ns| == |links| && LinksBelow(links, |ns|)
    ensures var r := Continue(ns, links, nInputs, logistic, done);
      r.1 >= done && r.1 <= G.Max(done, ExtraPasses) &&
      (r.1 < ExtraPasses ==> Settled(r.0, nInputs)) &&
      (Settled(ns, nInputs) ==> r == (ns, done))
    decreases ExtraPasses - done
  {
    if !(Settled(ns, nInputs) || done >= ExtraPasses) {
      ContinueBound(Pass(ns, links, nInputs, logistic), links, nInputs, logistic, done + 1);
    }
  }

  lemma RelaxBound(ns: seq<Node>, links: seq<seq<Link>>, nInputs: nat, logistic: real -> real)
    requires |ns| == |links| && LinksBelow(links, |ns|)
    ensures var r := Relax(ns, links, nInputs, logistic);
      1 + r.1 <= 1 + ExtraPasses && (r.1 < ExtraPasses ==> Settled(r.0, nInputs)) &&
      (Settled(Pass(ns, links, nInputs, logistic), nInputs) ==> r == (Pass(ns, links, nInputs, logistic), 0))
  {
    ContinueBound(Pass(ns, links, nInputs, logistic), links, nInputs, logistic, 0);
  }

  /** The weighted sum of the sources of `ls` in `ns`. */
  function WeightedSum(ns: seq<Node>, ls: seq<Link>): real
    requires SourcesBelow(ls, |ns|)
  {
    if ls == [] then 0.0
    else WeightedSum(ns, ls[..|ls| - 1]) + ns[ls[|ls| - 1].inNode].activation * ls[|ls| - 1].w
  }

  /** Every source of `ls` is activated in `ns`. */
  predicate SourcesActivated(ns: seq<Node>, ls: seq<Link>)
    requires SourcesBelow(ls, |ns|)
  {
    forall k :: 0 <= k < |ls| ==> ns[ls[k].inNode].activated
  }

  /**
   * Reading links changes node `i` only, and never its output value. Node `i` stays
   * activated exactly when it was and every source was activated when read (a source
   * other than `i` is as it was in `ns`); its sum then grows by the weighted sum of
   * the sources.
   */
  lemma {:induction false} ReadLinksEffect(ns: seq<Node>, i: nat, ls: seq<Link>)
    requires i < |ns| && SourcesBelow(ls, |ns|)
    ensures var r := ReadLinks(ns, i, ls);
      (forall k :: 0 <= k < |ns| && k != i ==> r[k] == ns[k]) &&
      r[i].activation == ns[i].activation && r[i].func == ns[i].func && r[i].kind == ns[i].kind &&
      (r[i].activated <==> ns[i].activated && SourcesActivated(ns, ls)) &&
      (r[i].activated ==> r[i].activesum == ns[i].activesum + WeightedSum(ns, ls))
  {
    if ls != [] {
      var init := ls[..|ls| - 1];
      var l := ls[|ls| - 1];
      ReadLinksEffect(ns, i, init);
      var p := ReadLinks(ns, i, init);
      assert forall k :: 0 <= k < |init| ==> init[k] == ls[k];
      assert p[l.inNode].activation == ns[l.inNode].activation;
      if p[i].activated {
        assert p[l.inNode].activated == ns[l.inNode].activated;
      }
      if ReadLinks(ns, i, ls)[i].activated {
        assert p[i].activated;
        assert SourcesActivated(ns, init);
      }
    }
  }

  /** A fed node is activated exactly when every source is activated — itself counting as
      activated — and its sum is then exactly the weighted sum of its sources. */
  lemma FeedEffect(ns: seq<Node>, i: nat, ls: seq<Link>)
    requires i < |ns| && SourcesBelow(ls, |ns|)
    ensures var c := ns[i := ns[i].(activesum := 0.0, activated := true)]; var r := Feed(ns, i, ls);
      (forall k :: 0 <= k < |ns| && k != i ==> r[k] == ns[k]) &&
      (r[i].activated <==> SourcesActivated(c, ls)) &&
      (r[i].activated ==> r[i].activesum == WeightedSum(c, ls))
  {
    ReadLinksEffect(ns[i := ns[i].(activesum := 0.0, activated := true)], i, ls);
  }

  /** The first pass of `Network::generate`: how many node genes are inputs and how
      many are outputs. */
  method CountGenes(ns: seq<G.NodeGene>) returns (ins: nat, outs: nat)
    ensures ins == CountKind(ns, G.Input) && outs == CountKind(ns, G.Output)
  {
    ins, outs := 0, 0;
    for k := 0 to |ns|
      invariant ins == CountKind(ns[..k], G.Input) && outs == CountKind(ns[..k], G.Output)
    {
      assert ns[..k + 1][..k] == ns[..k];
      if ns[k].kind == G.Input { ins := ins + 1; }
      if ns[k].kind == G.Output { outs := outs + 1; }
    }
    assert ns[..|ns|] == ns;
  }

  /** The last pass of `Network::generate`: every enabled gene appended to the links of
      the node it enters. */
  method GatherLinks(cs: seq<G.ConnectionGene>, n: nat) returns (ls: seq<seq<Link>>)
    requires forall k :: 0 <= k < |cs| && cs[k].enabled ==> cs[k].outNode < n
    ensures |ls| == n
    ensures forall m :: 0 <= m < n ==> ls[m] == Incoming(cs, m)
  {
    ls := seq(n, _ => []);
    for k := 0 to |cs|
      invariant |ls| == n
      invariant forall m :: 0 <= m < n ==> ls[m] == Incoming(cs[..k], m)
    {
      var x := cs[k];
      assert cs[..k + 1][..k] == cs[..k];
      if x.enabled {
        ls := ls[x.outNode := ls[x.outNode] + [Link(x.inNode, x.w)]];
      }
    }
    assert cs[..|cs|] == cs;
  }

  // ---------------------------------------------------------------------------
  // The compiled network

  class Network {
    var nodes: array<Node>
    var links: seq<seq<Link>>
    var nInputs: nat
    var nOutputs: nat

    /** The shape `generate` gives and every node idle, as between two evaluations. */
    ghost predicate Valid()
      reads this, nodes
    {
      |links| == nodes.Length && nInputs + nOutputs <= nodes.Length &&
      forall k :: 0 <= k < nodes.Length ==> Idle(nodes[k])
    }

    /**
     * Compiles `genome`: one node per node gene, in ascending id order, with
     * `nInputs`/`nOutputs` the numbers of Input/Output genes, and `links[k]` the
     * enabled genes entering node k, in genome order.
     */
    constructor Generate(genome: Genomes.Genome)
      requires forall k :: 0 <= k < |genome.connectionGenes| && genome.connectionGenes[k].enabled ==>
                 genome.connectionGenes[k].outNode < |genome.nodeGenes|
      ensures Valid() && fresh(nodes)
      ensures nodes.Length == |genome.nodeGenes|
      ensures forall k :: 0 <= k < nodes.Length ==> nodes[k] == Compile(ById(genome.nodeGenes)[k])
      ensures nInputs == CountKind(genome.nodeGenes, G.Input)
      ensures nOutputs == CountKind(genome.nodeGenes, G.Output)
      ensures forall k :: 0 <= k < |links| ==> links[k] == Incoming(genome.connectionGenes, k)
    {
      var ns := genome.nodeGenes;
      var ins, outs := CountGenes(ns);
      var sorted := ById(ns);
      var table := seq(|sorted|, m requires 0 <= m < |sorted| => Compile(sorted[m]));
      var ls := GatherLinks(genome.connectionGenes, |ns|);
      CountInputsOutputs(ns);
      nodes := new Node[|table|](m requires 0 <= m < |table| => table[m]);
      links := ls;
      nInputs, nOutputs := ins, outs;
    }

    /** Every link's source is a node. */
    ghost predicate SourcesInRange()
      reads this, nodes
    {
      LinksBelow(links, nodes.Length)
    }

    /**
     * Evaluates the network for `inputs`: seeds the input nodes, relaxes, reads the
     * outputs from nodes `nInputs .. nInputs + nOutputs - 1`, then resets every node.
     * The table ends as it started, so equal inputs always give equal outputs.
     */
    method Compute(inputs: seq<real>, logistic: real -> real) returns (outputs: seq<real>)
      requires Valid() && SourcesInRange() && nInputs <= |inputs|
      modifies nodes
      ensures Valid() && nodes[..] == old(nodes[..])
      ensures outputs == Evaluate(old(nodes[..]), links, nInputs, nOutputs, inputs, logistic)
    {
      ghost var start := nodes[..];
      SeedInputs(inputs);
      ghost var seeded := nodes[..];
      Relaxation(logistic);
      ghost var final := nodes[..];
      assert final == Relax(Seed(start, inputs, nInputs), links, nInputs, logistic).0;
      outputs := ReadOutputs();
      ResetNodes();
      assert nodes[..] == start by {
        forall m | 0 <= m < nodes.Length ensures nodes[m] == start[m] {
          assert final[m].func == start[m].func && final[m].kind == start[m].kind;
          assert Idle(start[m]);
        }
      }
    }

    /** The input loop of `compute`: input node i takes `inputs[i]` and is activated. */
    method SeedInputs(inputs: seq<real>)
      requires nInputs <= nodes.Length && nInputs <= |inputs|
      modifies nodes
      ensures nodes[..] == Seed(old(nodes[..]), inputs, nInputs)
    {
      ghost var start := nodes[..];
      for i := 0 to nInputs
        invariant forall k :: 0 <= k < nodes.Length ==> nodes[k] == Seed(start, inputs, i)[k]
      {
        nodes[i] := nodes[i].(activation := inputs[i], activesum := inputs[i], activated := true);
      }
      assert nodes[..] == Seed(start, inputs, nInputs);
    }

    /** The relaxation loop of `compute`: a first pass, then passes while some node is
        not activated, 20 at most. */
    method Relaxation(logistic: real -> real)
      requires nInputs <= nodes.Length == |links| && LinksBelow(links, nodes.Length)
      modifies nodes
      ensures nodes[..] == Relax(old(nodes[..]), links, nInputs, logistic).0
      ensures SameConfig(nodes[..], old(nodes[..]))
    {
      ghost var start := nodes[..];
      var flag := RunPass(logistic);
      var i := 0;
      ghost var first := nodes[..];
      while flag && i < ExtraPasses
        invariant 0 <= i <= ExtraPasses
        invariant flag == !Settled(nodes[..], nInputs)
        invariant Continue(nodes[..], links, nInputs, logistic, i) == Continue(first, links, nInputs, logistic, 0)
        invariant SameConfig(nodes[..], start)
        decreases ExtraPasses - i
      {
        i := i + 1;
        flag := RunPass(logistic);
      }
      assert Continue(nodes[..], links, nInputs, logistic, i) == (nodes[..], i);
    }

    /** The output loop of `compute`: the activations of the output nodes, in order. */
    method ReadOutputs() returns (outputs: seq<real>)
      requires nInputs + nOutputs <= nodes.Length
      ensures |outputs| == nOutputs
      ensures forall m :: 0 <= m < nOutputs ==> outputs[m] == nodes[nInputs + m].activation
    {
      outputs := [];
      for k := nInputs to nInputs + nOutputs
        invariant |outputs| == k - nInputs
        invariant forall m :: 0 <= m < |outputs| ==> outputs[m] == nodes[nInputs + m].activation
      {
        outputs := outputs + [nodes[k].activation];
      }
    }

    /** The reset loop of `compute`: every node idle again, its configuration kept. */
    method ResetNodes()
      modifies nodes
      ensures nodes[..] == Reset(old(nodes[..]))
    {
      ghost var start := nodes[..];
      for k := 0 to nodes.Length
        invariant forall m :: 0 <= m < k ==> nodes[m] == Reset(start)[m]
        invariant forall m :: k <= m < nodes.Length ==> nodes[m] == start[m]
      {
        nodes[k] := nodes[k].(activated := false, activation := 0.0, activesum := 0.0);
      }
    }

    /** One relaxation pass over the non-input nodes; `flag` tells whether some node is
        still not activated. */
    method RunPass(logistic: real -> real) returns (flag: bool)
      requires nInputs <= nodes.Length == |links| && LinksBelow(links, nodes.Length)
      modifies nodes
      ensures nodes[..] == Pass(old(nodes[..]), links, nInputs, logistic)
      ensures flag == !Settled(nodes[..], nInputs)
      ensures SameConfig(nodes[..], old(nodes[..]))
    {
      ghost var start := nodes[..];
      for i := nInputs to nodes.Length
        invariant nodes[..] == FeedRange(start, links, nInputs, i)
        invariant SameConfig(nodes[..], start)
      {
        FeedNode(i);
      }
      ghost var fed := nodes[..];
      flag := FireNodes(logistic);
      assert forall k :: 0 <= k < nodes.Length ==> nodes[k].activated == fed[k].activated;
    }

    /** The link loop of one node in the first half of a pass: node `i` is cleared and
        reads its incoming links in order. */
    method FeedNode(i: nat)
      requires i < nodes.Length == |links| && LinksBelow(links, nodes.Length)
      modifies nodes
      ensures nodes[..] == Feed(old(nodes[..]), i, links[i])
      ensures SameConfig(nodes[..], old(nodes[..]))
    {
      ghost var start := nodes[..];
      nodes[i] := nodes[i].(activesum := 0.0, activated := true);
      ghost var cleared := nodes[..];
      var ls := links[i];
      for k := 0 to |ls|
        invariant nodes[..] == ReadLinks(cleared, i, ls[..k])
        invariant SameConfig(nodes[..], start)
      {
        var l := ls[k];
        assert ls[..k + 1][..k] == ls[..k] && ls[..k + 1][k] == l;
        ghost var cur := nodes[..];
        assert ReadLinks(cleared, i, ls[..k + 1]) == ReadLink(cur, i, l);
        var src, me := nodes[l.inNode], nodes[i];
        if src.activated {
          nodes[i] := me.(activesum := me.activesum + src.activation * l.w);
        } else {
          nodes[i] := me.(activated := false);
        }
        assert me == cur[i] && src == cur[l.inNode];
        assert nodes[i] == ReadLink(cur, i, l)[i];
        assert nodes[..] == cur[i := nodes[i]];
      }
      assert ls[..|ls|] == ls;
    }

    /** The second half of a pass: every activated non-input node applies its
        activation; `flag` tells whether some non-input node is not activated. */
    method FireNodes(logistic: real -> real) returns (flag: bool)
      requires nInputs <= nodes.Length
      modifies nodes
      ensures nodes[..] == FireAll(old(nodes[..]), nInputs, logistic)
      ensures flag == !Settled(old(nodes[..]), nInputs)
    {
      ghost var fed := nodes[..];
      flag := false;
      for i := nInputs to nodes.Length
        invariant forall k :: 0 <= k < nodes.Length ==> nodes[k] == if nInputs <= k < i then Fire(fed[k], logistic) else fed[k]
        invariant flag <==> exists k :: nInputs <= k < i && !fed[k].activated
      {
        if !nodes[i].activated {
          flag := true;
          continue;
        }
        nodes[i] := nodes[i].(activation := Apply(nodes[i].activesum, nodes[i].func, logistic));
      }
      assert nodes[..] == FireAll(fed, nInputs, logistic);
    }
  }
}
