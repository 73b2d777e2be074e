# A verified model of a poker table and its NEAT agents

The repository plays three-handed Texas hold'em between agents and grows neural
networks for those agents with NEAT (NeuroEvolution of Augmenting Topologies). This
project models the two cores of that program in Dafny and proves properties of the
model:

- **The evolution engine.** It covers:
  - the genome: node genes, connection genes with innovation markers, crossover,
    the compatibility distance and the mutation operators;
  - the network compiled from a genome, and its relaxation-based evaluation;
  - the population: species formation, selection with fitness sharing and
    truncation, and reproduction by roulette choice of parents.
- **The betting engine.** It covers:
  - detecting when the game is over;
  - posting the blinds;
  - applying an action to the table;
  - the rule-based agent;
  - paying the winners;
  - `pick_winners`, the showdown with its hand tests and the ordering of combinations.

Modules, one per file:

| module | file | models |
|---|---|---|
| `Genes` | genes.dfy | node and connection genes, the activation enumeration |
| `Genomes` | genome.dfy | `Genome`: generate, crossover, speciation distance, and the in-place mutations on class `MutableGenome` |
| `Networks` | network.dfy | `Network`: generate and compute, on class `Network` over an `array<Node>` |
| `Species` | species.dfy | the species assignment and the removal of empty species of `generate_species` |
| `Selection` | selection.dfy | fitness sharing, per-species truncation, the erase step and the final truncation of `selection` |
| `Reproduction` | reproduction.dfy | the random source, the roulette, and the making of one child |
| `Sorting` | sorting.dfy | the descending sort and `resize` that `selection` and the showdown use |
| `Populations` | population.dfy | class `Population` with `generate`, `generate_species`, `selection` and `reproduction` |
| `Cards` | cards.dfy | cards and the hand tests of `pick_winners` |
| `Showdown` | showdown.dfy | `Combo`, its comparisons, the classification chain and `pick_winners` |
| `Poker` | poker.dfy | `size_t` arithmetic, `Action`, `Game::apply`, `Agent::act`, the blinds, the payout and `Game::over` |

Modelling choices:

- **Genomes are values.** The source copies genomes freely: `vector<Genome>`,
  crossover returning by value, `Population::generate` pushing copies. Only the
  mutation operators change a genome in place, so they are methods of
  `Genomes.MutableGenome`, whose fields mirror the struct.
- **The global innovation counter** `ConnectionGene::Innov_N` is passed in as `innov`
  and returned as `innov'`.
- **The registry.** A ghost map `reg` records, for every marker handed out so far,
  the endpoints it was given. Through it the model states that all genomes of one
  run agree on what a marker joins.
- **Randomness** is a tape, class `Reproduction.Rng`:
  - `randomf`, `random` and `randomnorm` read successive entries of three supplied
    functions;
  - where there is a single draw, the drawn value is a parameter with the range the
    source's draw has.
  - the making of a child is also given as functions of the tape position where it
    starts: `Reproduction.Coins` for the crossover coins, `SplitRolled`,
    `ConnectRolled` and `Perturbed` for the three mutation stages, `Mutated` and
    `Bred` for their composition, `Populations.Picked` for the roulette,
    `Populations.Parents` for the picks in crossover order, `Populations.Child` for one
    birth and `Populations.Born` for all the births of one `reproduction`. Each
    returns the next position, and each method that consumes draws is proved to
    produce exactly that function's result.
- **Floating point.** `float` is `real`, and `expf`/`powf` are supplied functions.
  The compatibility distance returns `Distance.NaN` where `0/0` occurs in the source:
  no matching genes. A NaN distance is below no threshold, as in IEEE comparison.
- **`size_t` arithmetic** in the betting engine wraps modulo 2^64 explicitly
  (`Poker.Add64`, `Poker.Sub64`). The chip-conservation laws are therefore stated
  modulo 2^64.

Behaviour of the code that the model keeps as written:

- `Genome::speciation_coeff` uses the larger node count *times* the smaller, as the
  operator precedence of `1.f * max / 1.f * min` makes it.
- `Node::apply` returns the logistic function before its `switch`, so every
  activation computes the same value (`Networks.ApplyIgnoresActivation`).
- `get_dominant_color` raises each colour counter once, whatever the hand holds. So
  the dominant colour is always Club with a count of one, and no flush, straight
  flush or royal flush is ever recognised (`Cards.TestFlush`, `Showdown.KindOf`).
- `test_straight` turns an ace's start value into `(size_t)(-1)`, which is above a
  ten, so it skips aces. A straight therefore never starts at the ace: ace to five
  is no straight (`Cards.NoWheel`).
- `test_full` asks for a value held exactly twice, so a hand with two values held
  three times each is no full house. The chain then classifies it as a three of a
  kind (`Cards.FullMeaning`, `Showdown.TwoTripsMissed`).
- `test_two_pair` counts cards, not values: three cards of one value among the first
  six pass it with no second pair (`Cards.TwoPairMeaning`).
- The erase predicate of `selection` removes the genomes that some truncated species
  still holds, and keeps the others (`Selection.SurvivorsExact`).
- The roulette of `reproduction` subtracts every fitness from both residues but only
  moves `p2` while `r1` is not yet negative. So when the first draw is not larger,
  the first parent is where the *second* residue lands and `p2` stays 0
  (`Reproduction.SpinFirstLeads`, `Reproduction.SpinSecondLags`).
- `Population::generate` advances the innovation counter by the connection count even
  for a population of size zero.

## Model

| member | source | states |
|---|---|---|
| Genes.ActivationOf | src/IA/Genome.cpp:70-73 | the cast of a draw below the activation count gives the activation at that position of the enumeration |
| Genes.ActivationIndex | src/IA/Genome.hpp:18-24 | every activation has a position below the count of four |
| Genomes.AppendFresh | src/IA/Genome.cpp:25-29 | appending a gene that carries the current counter value, with endpoints that are nodes, keeps the markers strictly ascending and below the advanced counter, and the endpoints in range |
| Genomes.AscendingUnique | src/IA/Genome.cpp:25 | no two genes of a well-formed genome share an innovation marker |
| Genomes.AppendUnlinked | src/IA/Genome.cpp:13-15 | appending a gene between two different nodes that no gene joins yet, in either direction, keeps the genes free of self-loops and of pairs joined twice |
| Genomes.SameStructureLinks | src/IA/Genome.cpp:66-77 | changing only weights and enabled flags keeps the genes free of self-loops and of pairs joined twice |
| Genomes.MinimalConnectionAt | src/IA/Genome.cpp:177-187 | position `row * nOutputs + col` of the minimal genome is the enabled gene from input `row` to output `nInputs + col` with marker `innov + row * nOutputs + col` |
| Genomes.MinimalConnectionEnds | src/IA/Genome.cpp:177-187 | every minimal connection leaves an input node and enters an output node |
| Genomes.MinimalConnectionsDistinct | src/IA/Genome.cpp:177-187 | two different positions of the minimal genome join different pairs of nodes |
| Genomes.MinimalNodes | src/IA/Genome.cpp:161-175 | the node loops give the inputs then the outputs, all Linear, with ids equal to their positions |
| Genomes.MinimalConnections | src/IA/Genome.cpp:177-187 | the nested loop gives one connection per input/output pair in row-major order, and advances the counter by their number |
| Genomes.Generate | src/IA/Genome.cpp:155-188 | the minimal genome: the default fields, the node layout, one connection per pair, the counter advanced by `nInputs * nOutputs`, and well formed |
| Genomes.Match | src/IA/Genome.cpp:91-101 | the gene the inner scan of `crossover` stops at is a gene of the other parent with the same marker |
| Genomes.MatchFindsPresent | src/IA/Genome.cpp:91-101 | on an innovation-ordered parent, the early-exit scan finds a gene exactly when the marker is present |
| Genomes.Crossover | src/IA/Genome.cpp:79-109 | the offspring has parent 1's nodes and shape and one gene per gene of parent 1: its own gene when unmatched, otherwise the averaged gene or the other parent's gene, by the coin |
| Genomes.CrossoverKeepsMarkers | src/IA/Genome.cpp:86-105 | the offspring's genes carry parent 1's markers in parent 1's order, so it holds no marker parent 1 lacks |
| Genomes.CrossoverWellFormed | src/IA/Genome.cpp:79-109 | when the parents agree on what each shared marker joins, the offspring of a well-formed parent 1 is well formed and has parent 1's endpoints gene by gene |
| Genomes.Crossed | src/IA/Genome.cpp:86-105 | for any list of coin outcomes, the offspring has one gene per gene of parent 1 |
| Genomes.AlignCounts | src/IA/Genome.cpp:118-146 | the lockstep walk ends with one list used up; each match advances both lists and each disjoint gene one list; matches are bounded by the shorter list; the weight gap is not negative |
| Genomes.AlignSymmetric | src/IA/Genome.cpp:118-143 | swapping the two lists swaps the two positions and leaves the counts unchanged |
| Genomes.AlignSameMarkers | src/IA/Genome.cpp:118-143 | two lists with the same markers in the same order match everywhere, with no disjoint gene and no excess |
| Genomes.Walk | src/IA/Genome.cpp:118-146 | the loop of `speciation_coeff` ends with the counters of the lockstep walk |
| Genomes.SpeciationCoeff | src/IA/Genome.cpp:111-153 | the distance is the formula over the walk's counts, and it is NaN exactly when no gene matches |
| Genomes.DistanceSymmetric | src/IA/Genome.cpp:111-153 | with equal coefficients the distance of `a` to `b` is the distance of `b` to `a` |
| Genomes.DistanceOfSameStructure | src/IA/Genome.cpp:111-153 | two non-empty genomes with the same markers are at a distance of `c3` times their mean weight gap |
| Genomes.Oriented | src/IA/Genome.cpp:17-24 | the new connection joins the two drawn nodes and never points Hidden to Input, Output to Hidden or Output to Input |
| Genomes.SameStructureWellFormed | src/IA/Genome.cpp:66-77 | changing weights, enabled flags or activations keeps a genome well formed |
| Genomes.MutableGenome.constructor | src/IA/Genome.hpp:35-53 | the mutable copy holds exactly the given genome |
| Genomes.MutableGenome.AddConnectionMutation | src/IA/Genome.cpp:6-30 | a self-loop or an already joined pair leaves genome and counter unchanged; otherwise the oriented gene with the counter's marker is appended and the counter advances; well-formedness is kept |
| Genomes.MutableGenome.AddNodeMutation | src/IA/Genome.cpp:32-58 | the drawn gene is disabled; a Hidden Relu node with the next id is appended, with the genes into it (weight 1) and out of it (the old weight) marked with the next two counter values; well-formedness is kept |
| Genomes.Split | src/IA/Genome.cpp:32-58 | a node split adds exactly one node and two genes |
| Genomes.MutableGenome.WeightMutation | src/IA/Genome.cpp:66-68 | only the weight of gene `i` changes, by the normal draw |
| Genomes.MutableGenome.ActivationFuncMutation | src/IA/Genome.cpp:70-73 | only the activation of node `i` changes, to the drawn one |
| Genomes.MutableGenome.RemoveConnectionMutation | src/IA/Genome.cpp:75-77 | gene `i` is disabled and kept; nothing else changes |
| Genomes.MutableGenome.DelNodeMutation | src/IA/Genome.cpp:60-64 | the genome is left unchanged |
| Networks.ApplyIgnoresActivation | src/IA/Network.cpp:8-22 | every activation computes the logistic function of its input |
| Networks.ToNodeActivation | src/IA/Network.cpp:37-53 | each genome activation becomes the network activation of the same name |
| Networks.ToNodeActivationInjective | src/IA/Network.cpp:37-53 | different genome activations give different network activations |
| Networks.Compile | src/IA/Network.cpp:34-53 | a node is LSTM exactly when its gene is, takes its gene's activation, and starts idle |
| Networks.ById | src/IA/Network.cpp:61 | the sorted genes are a permutation of the node genes in ascending id order |
| Networks.ByIdDense | src/IA/Network.cpp:61 | for dense ids, as every genome of this program has, the sort leaves the genes in place |
| Networks.CountInputsOutputs | src/IA/Network.cpp:57-58 | the input and output counts together never exceed the node count |
| Networks.IncomingExact | src/IA/Network.cpp:67-70 | a link into node `k` is exactly an enabled gene into `k`, with its source and weight |
| Networks.IncomingSources | src/IA/Network.cpp:67-70 | every link source is an endpoint of the genome, hence a node |
| Networks.ReadLinksEffect | src/IA/Network.cpp:94-98 | reading links changes node `i` only; it stays activated exactly when every source was activated, and then its sum grows by the weighted sum of the sources |
| Networks.FeedEffect | src/IA/Network.cpp:89-99 | after the first half of a pass node `i` is activated exactly when all its sources are, and its sum is then their weighted sum; other nodes are unchanged |
| Networks.ContinueBound | src/IA/Network.cpp:83-111 | after the first pass, the loop makes at most 20 more passes; it stops early only once every non-input node is activated, and a settled table stops it at once |
| Networks.RelaxBound | src/IA/Network.cpp:83-111 | the relaxation makes between 1 and 21 passes, ends settled unless it used them all, and stops after one pass when that pass settles |
| Networks.Evaluate | src/IA/Network.cpp:139-142 | `compute` returns exactly one value per output node |
| Networks.Reset | src/IA/Network.cpp:143 | after the reset every node is idle |
| Networks.CountGenes | src/IA/Network.cpp:57-58 | the counting loop finds the numbers of Input and Output genes |
| Networks.GatherLinks | src/IA/Network.cpp:63-70 | `links[m]` is the list of enabled genes entering node `m`, in genome order, for every node |
| Networks.Network.Generate | src/IA/Network.cpp:24-73 | one compiled node per gene in ascending id order, the input and output counts, and the incoming links of each node |
| Networks.Network.Compute | src/IA/Network.cpp:75-146 | the outputs are the evaluation of the inputs, and the node table ends exactly as it started |
| Networks.Network.SeedInputs | src/IA/Network.cpp:76-81 | input node `i` takes `inputs[i]` as activation and sum and is activated; the other nodes are unchanged |
| Networks.Network.Relaxation | src/IA/Network.cpp:83-111 | the table is the relaxation of the old one and keeps every node's configuration |
| Networks.Network.ReadOutputs | src/IA/Network.cpp:142 | the outputs are the activations of nodes `nInputs .. nInputs + nOutputs - 1` |
| Networks.Network.ResetNodes | src/IA/Network.cpp:143 | every node is idle again, with its configuration kept |
| Networks.Network.RunPass | src/IA/Network.cpp:86-109 | one pass is the first half then the second half, and the flag says whether some node stayed unactivated |
| Networks.Network.FeedNode | src/IA/Network.cpp:89-99 | node `i` is cleared and reads its links |
| Networks.Network.FireNodes | src/IA/Network.cpp:101-109 | every activated non-input node applies its activation to its sum, and the flag says whether some node was not activated |
| Species.PartitionUnique | src/IA/Population.cpp:124-142 | in a partition each index is in exactly one species |
| Species.FirstClose | src/IA/Population.cpp:130-135 | the scan stops at the first representative whose distance is below the threshold, or after the last one |
| Species.JoinPartition | src/IA/Population.cpp:132 | adding index `i` to an existing species extends the partition to `i` |
| Species.FoundPartition | src/IA/Population.cpp:137-138 | a new species `[i]` extends the partition to `i` |
| Species.PlacePartition | src/IA/Population.cpp:130-138 | genome `i` joins the first close species, or founds a new one with itself as representative; the partition is extended and the old representatives kept |
| Species.PlaceGrows | src/IA/Population.cpp:127-141 | placing a genome extends the partition and keeps the representatives known so far as a prefix |
| Species.AssignPartition | src/IA/Population.cpp:127-142 | after the assignment loop every genome index is in exactly one ascending species, and the old representatives come first |
| Species.Empties | src/IA/Population.cpp:124-125 | `clear` then `resize` gives one empty species per representative |
| Species.EmptyPartition | src/IA/Population.cpp:124-125 | empty species partition the empty range |
| Species.RemoveAtParts | src/IA/Population.cpp:146-149 | swap-with-last removal keeps the prefix and rearranges the rest |
| Species.ZipRemoveAt | src/IA/Population.cpp:146-149 | the species list and the representative list are removed from at the same position |
| Species.PruneKeepsPairs | src/IA/Population.cpp:144-151 | the downward removal loop keeps each remaining species with its own representative: the remaining pairs are the non-empty ones, as a multiset |
| Species.PruneNonEmpty | src/IA/Population.cpp:144-151 | once the loop has passed every position, no species is empty |
| Species.RemoveEmptyPartition | src/IA/Population.cpp:145-149 | removing an empty species keeps the partition |
| Species.PrunePartition | src/IA/Population.cpp:144-151 | the removal loop keeps the partition |
| Species.AssignedPartition | src/IA/Population.cpp:124-142 | the assignment from empty species partitions all genome indices and keeps the old representatives first |
| Species.SpeciesOutcome | src/IA/Population.cpp:122-153 | after `generate_species` each genome is in exactly one ascending species, no species is empty, and the species are the non-empty ones of the assignment, each with its representative |
| Selection.FirstOtherSizeFound | src/IA/Population.cpp:15-20 | the species loop yields the size of the first species that does not hold `i`, or 0 when every species holds it |
| Selection.FirstOtherOfPartition | src/IA/Population.cpp:15-20 | in a partition, `n` is the size of the first species unless `i` is in it, and then the size of the second species or 0 |
| Selection.DivisorNonZero | src/IA/Population.cpp:22-24 | under the power-function premise the divisor of every genome is non-zero |
| Selection.AdjustedOnlyFitness | src/IA/Population.cpp:22-26 | only the adjusted fitness changes, and it times the divisor is the fitness |
| Selection.KeepCount | src/IA/Population.cpp:30-37 | a truncation to `(size_t)(to_kill * to_kill * n)` never grows a list when `to_kill` squared is at most 1 |
| Selection.KeepCountHalf | src/IA/Population.cpp:30-37 | with the default `to_kill` of 0.5 a truncation keeps `n / 4` entries |
| Selection.TruncateKeepsFittest | src/IA/Population.cpp:32-37 | a truncated species is a prefix of an ordering of the species by descending adjusted fitness |
| Selection.Kept | src/IA/Population.cpp:40-47 | the indices that survive the erase are ascending, and are exactly the indices that no species holds |
| Selection.SurvivorsExact | src/IA/Population.cpp:40-47 | a genome survives the erase exactly when it sits at an index that no truncated species holds |
| Selection.SurvivorsStep | src/IA/Population.cpp:40-46 | each step of `remove_if` keeps genome `m` exactly when the predicate finds `m` in no species |
| Selection.FinishKeepsFittest | src/IA/Population.cpp:48-52 | the final list is ordered by descending adjusted fitness and is the first `KeepCount` entries of a descending ordering of all survivors; every survivor left out is no fitter than the last one kept |
| Selection.SelectOutcome | src/IA/Population.cpp:10-52 | every genome left by `selection` is the adjusted genome of an index that no truncated species holds |
| Sorting.Insert | src/IA/Population.cpp:48-51 | insertion keeps the list ordered and adds exactly the one element |
| Sorting.SortDescending | src/IA/Population.cpp:48-51 | the sort gives a permutation of its input, ordered by non-increasing key |
| Sorting.SortDescendingSorted | src/IA/Population.cpp:48-51 | a list already in order comes back unchanged |
| Sorting.PrefixOfDescending | src/IA/Population.cpp:52 | a prefix of an ordered list is ordered and holds only elements of the list |
| Sorting.PrefixBoundsRest | src/IA/Population.cpp:48-52 | every element of a descending list that is left out of a prefix is at most the prefix's last element |
| Sorting.Resize | src/IA/Population.cpp:52 | `resize` gives length `n`, keeps the old elements in place and fills new places with the default |
| Sorting.ResizeShrinks | src/IA/Population.cpp:52 | resizing to a smaller length keeps the prefix |
| Reproduction.Rng.constructor | src/IA/Population.cpp:80-81 | the tape starts at its first draw |
| Reproduction.Rng.Randomf | src/IA/Population.cpp:80-81 | `randomf()` is the next uniform draw, in [0, 1) |
| Reproduction.Rng.Random | src/IA/Genome.cpp:7-8 | `random(n)` is the next integer draw reduced below `n` |
| Reproduction.Rng.Randomnorm | src/IA/Genome.cpp:66-68 | `randomnorm(mean, sigma)` is the next normal draw scaled by `sigma` and shifted by `mean` |
| Reproduction.Pick | src/IA/Population.cpp:86-102 | a one-residue roulette pick is a position of the list |
| Reproduction.PickLands | src/IA/Population.cpp:86-102 | with non-negative fitness, a residue drawn below the fitness sum always lands on a position |
| Reproduction.SpinInRange | src/IA/Population.cpp:86-102 | both picks of the roulette loop are positions of the parent list |
| Reproduction.SpinFirstLeads | src/IA/Population.cpp:86-102 | when `r1 <= r2`, `p2` is never set, and `p1` ends where the second residue lands |
| Reproduction.SpinSecondTrails | src/IA/Population.cpp:86-102 | when `r2` is already negative, `p1` is where `r1` lands and `p2` is the position before it, or unchanged |
| Reproduction.SpinSecondLags | src/IA/Population.cpp:86-102 | when `r2 < r1`, `p1` is where `r1` lands and `p2` is either unchanged or the position just before `p1` |
| Reproduction.Roulette | src/IA/Population.cpp:83-102 | the roulette loop computes the two-residue spin from position 0, and its picks are positions of a non-empty list |
| Reproduction.ConformsAgree | src/IA/Genome.cpp:25 | two gene lists that follow one registry of handed-out markers agree on the endpoints of every shared marker |
| Reproduction.ConformsAppend | src/IA/Genome.cpp:25 | recording a gene with the counter's marker keeps the list following the registry, and keeps the registry below the advanced counter |
| Reproduction.Partnered | src/IA/Genome.cpp:86-105 | the genes of parent 1 that parent 2 matches, one draw each, are at most the genes of parent 1 |
| Reproduction.Coins | src/IA/Genome.cpp:103-104 | one coin per gene of parent 1, and the tape ends after one uniform draw per matched gene |
| Reproduction.CoinsAt | src/IA/Genome.cpp:103-104 | coin `k` is true exactly when parent 2 matches gene `k` and the uniform draw after the matched genes before `k` is above one half; by `Genomes.Crossed` a true coin keeps parent 1's gene with its weight averaged with the partner's, a false coin on a matched gene takes parent 2's gene, and an unmatched gene is parent 1's |
| Reproduction.Mate | src/IA/Population.cpp:106 | the child is the crossover for the coin outcomes read from the tape, one uniform draw per gene of parent 1 that parent 2 matches, and the tape advances by that number; the child of a viable, well-formed first parent is growing: well formed, follows the registry, viable, and begins with the first parent's structure |
| Reproduction.SplitRoll | src/IA/Population.cpp:107 | genome, counter and tape position after the call are exactly those of the node-split roll read from the tape; the child stays growing and the registry is only extended |
| Reproduction.SplitRolled | src/IA/Population.cpp:107 | the node-split roll keeps the input count and never shrinks the node or gene lists |
| Reproduction.SplitRolledChanges | src/IA/Population.cpp:107 | the roll changes the genome exactly when its uniform draw is below `mutation_add_node`, and then uses two markers, otherwise none |
| Reproduction.SplitGrowing | src/IA/Genome.cpp:32-58 | a node split keeps the child growing under the counter advanced by two |
| Reproduction.ConnectRoll | src/IA/Population.cpp:108 | genome, counter and tape position after the call are exactly those of the connection roll read from the tape; the child stays growing and the registry is only extended |
| Reproduction.ConnectRolledChanges | src/IA/Genome.cpp:6-30 | the roll changes the genome exactly when its draw is below `mutation_add_connection` and the two drawn nodes are different and not yet joined; a change uses one marker, no change none |
| Reproduction.ConnectMutation | src/IA/Population.cpp:108 | genome, counter and tape position are exactly the connection roll read from the tape, and well-formedness is kept |
| Reproduction.ConnectDrawn | src/IA/Genome.cpp:6-30 | genome, counter and tape position are exactly `add_connection_mutation` read from the tape, and well-formedness is kept |
| Reproduction.ConnectedFrom | src/IA/Genome.cpp:6-30 | for the nodes and weight drawn, the mutation appends the oriented gene and advances counter and tape when the pair is new, and otherwise changes nothing but the tape |
| Reproduction.DrawConnection | src/IA/Genome.cpp:7-8 | the two node draws are the next two integer draws reduced as `random` does, and the weight, drawn only for a new pair, is the next uniform draw mapped to [-1, 1) |
| Reproduction.ConnectGrowing | src/IA/Population.cpp:108 | the connection roll keeps the child growing and only extends the registry |
| Reproduction.Perturb | src/IA/Population.cpp:109-114 | genome and tape position after the call are exactly those of the per-gene weight and disable rolls and the per-node activation rolls read from the tape; the child stays growing |
| Reproduction.GeneRolled | src/IA/Population.cpp:110-111 | the two rolls of one gene keep its endpoints and marker and use two or three draws |
| Reproduction.GeneRolledEffect | src/IA/Population.cpp:110-111 | the weight moves by the scaled normal draw exactly when the first draw is below `mutation_weight`; the gene ends disabled exactly when it was or the next draw is below `mutation_del_connection`; nothing else changes |
| Reproduction.GenesRolled | src/IA/Population.cpp:109-112 | the gene loop keeps the genes' structure and uses at least two draws per gene |
| Reproduction.GenesRolledAt | src/IA/Population.cpp:109-112 | gene `k` is rolled from the tape position where the rolls of the genes before it ended |
| Reproduction.NodeRolled | src/IA/Population.cpp:114 | the roll of one node keeps its id and kind and uses one or two draws |
| Reproduction.NodesRolled | src/IA/Population.cpp:113-114 | the node loop keeps every node's id and kind and uses at least one draw per node |
| Reproduction.NodesRolledAt | src/IA/Population.cpp:113-114 | node `k` takes the activation of the integer draw exactly when its uniform draw, at the position where the rolls before it ended, is below `mutation_activation` |
| Reproduction.Perturbed | src/IA/Population.cpp:109-114 | the rolls keep the structure of the genes, the node count and every other field |
| Reproduction.GeneMutation | src/IA/Population.cpp:110-111 | only gene `i` changes, to its roll read from the tape |
| Reproduction.NodeMutation | src/IA/Population.cpp:114 | only node `i` changes, to its roll read from the tape |
| Reproduction.GenesMutation | src/IA/Population.cpp:109-112 | the genes and the tape position become those of the gene rolls; nothing else changes |
| Reproduction.NodesMutation | src/IA/Population.cpp:113-114 | the nodes and the tape position become those of the node rolls; nothing else changes |
| Reproduction.Mutated | src/IA/Population.cpp:107-114 | the three mutation stages use at most three markers and never remove a gene |
| Reproduction.Mutate | src/IA/Population.cpp:107-114 | genome, counter and tape position are exactly the three mutation stages read from the tape; the child stays growing |
| Reproduction.Breed | src/IA/Population.cpp:106-116 | child, counter and tape position are exactly those of the crossover followed by the three mutation stages read from the tape; the child is well formed, follows the grown registry, is viable, begins with the first parent's structure, and has age 0 |
| Reproduction.Bred | src/IA/Population.cpp:106-114 | crossover and mutation use at most three markers and keep at least parent 1's gene count |
| Populations.IsRetained | src/IA/Population.cpp:40-46 | the nested search of the erase predicate finds `i` exactly when some species holds it |
| Populations.AssignAll | src/IA/Population.cpp:124-142 | the assignment loop computes the assignment from empty species |
| Populations.ScanRepresentatives | src/IA/Population.cpp:130-135 | the inner loop stops at the first close representative |
| Populations.RemoveEmpty | src/IA/Population.cpp:144-151 | the downward swap-and-pop loop computes the removal of empty species |
| Populations.FirstOther | src/IA/Population.cpp:15-20 | the species loop of `selection` computes the size of the first species that does not hold `i` |
| Populations.AdjustAll | src/IA/Population.cpp:13-28 | the fitness-sharing loop sets every genome's adjusted fitness |
| Populations.TruncateEach | src/IA/Population.cpp:35-38 | each species is sorted by adjusted fitness and truncated |
| Populations.Erase | src/IA/Population.cpp:40-47 | `remove_if` keeps, in order, the genomes whose index no species holds |
| Populations.FormSpecies | src/IA/Population.cpp:122-153 | the species are a partition of the genome indices with no empty species, one representative each |
| Populations.Cull | src/IA/Population.cpp:13-52 | the body of `selection` after species formation: the truncated species and the selected genomes |
| Populations.AgeAll | src/IA/Population.cpp:119 | every genome is one generation older, with nothing else changed |
| Populations.Refill | src/IA/Population.cpp:79-117 | children are appended until there are `size` genomes, the old ones kept in front; the genomes bred from are fit to breed from; each child has age 0 and begins with the structure of a parent of no greater adjusted fitness than the other; the children are exactly `Born` of the births that bring the genomes to `size`, from the counter and tape position on entry, and the counter and tape end where `Born` leaves them |
| Populations.Birth | src/IA/Population.cpp:80-116 | one child: the parents are `Parents` of the tape position on entry, and the child, counter and tape position are `Bred` of those parents from the tape position after the two draws, that is `Child` of the entry counter and position |
| Populations.PickParents | src/IA/Population.cpp:80-104 | the two draws advance the tape by two, and the parents are the roulette picks of those draws, with the one of lower adjusted fitness first |
| Populations.Grow | src/IA/Population.cpp:79-116 | one pass of the birth loop appends exactly `Child` of the counter and tape position on entry, of age 0, leaves counter and tape where `Child` does, and keeps the loop's invariants |
| Populations.Parents | src/IA/Population.cpp:80-104 | the two parents of one birth are positions of `gs`: the roulette picks of the uniform draws at `at` and `at + 1`, scaled by the fitness sum, swapped when the first is fitter |
| Populations.ChildIsBred | src/IA/Population.cpp:80-116 | once the parents are named, one birth from counter `innov` and tape position `at` is `Bred` of them from position `at + 2` |
| Populations.BornStep | src/IA/Population.cpp:79-116 | one more birth appends the child born where the earlier births left counter and tape, and moves counter and tape to where that child leaves them |
| Populations.Renewed | src/IA/Population.cpp:72-120 | the birth loop and then the ageing loop: the old genomes one generation older, then exactly the children of `Born` with age 1, and counter and tape where `Born` leaves them |
| Populations.SumFitness | src/IA/Population.cpp:76-77 | the first loop sums the adjusted fitnesses |
| Populations.Population.constructor | src/IA/Population.hpp:5-25 | an empty population with the member initialisers of the class |
| Populations.Population.Generate | src/IA/Population.cpp:155-161 | `popSize` copies of one minimal, well-formed genome, and the counter advanced by `nInputs * nOutputs` |
| Populations.Population.GenerateSpecies | src/IA/Population.cpp:122-153 | the species become a partition of the genome indices with no empty species, each with its own representative; genomes and settings are unchanged |
| Populations.Population.Select | src/IA/Population.cpp:10-52 | the species are formed, then truncated by adjusted fitness, and the genomes become the selection of the old genomes |
| Populations.Population.Reproduce | src/IA/Population.cpp:72-120 | the population is refilled to its size; the old genomes are kept one generation older; the children have age 1, come from the recorded parents and are exactly `Born` of the births from the counter and tape position on entry, with the counter and tape left where `Born` leaves them |
| Cards.ColorIndex | src/poker.hpp:5-11 | the four colours have positions below 4 |
| Cards.CopiesCountValue | src/poker.cpp:332-336 | the four per-colour counts of a value add up to the number of cards of that value |
| Cards.TestFourOfAKind | src/poker.cpp:318-328 | the loop answers whether one of the first four cards has its value in all four colours |
| Cards.FourOfAKindExact | src/poker.cpp:318-328 | looking at the first four cards only misses no four of a kind |
| Cards.TestThreeOfAKind | src/poker.cpp:330-341 | the loop answers whether the value of one of the first five cards is held three times |
| Cards.ThreeOfAKindExact | src/poker.cpp:330-341 | the test holds exactly when some value is held three times |
| Cards.TestPair | src/poker.cpp:343-354 | the loop answers whether the value of one of the first six cards is held twice |
| Cards.PairExact | src/poker.cpp:343-354 | the test holds exactly when some value is held twice |
| Cards.TestTwoPair | src/poker.cpp:356-372 | the loop answers whether more than two of the first six cards have a value held twice |
| Cards.TwoPairComplete | src/poker.cpp:356-372 | two distinct values held twice each are always recognised |
| Cards.MarksCoverOne | src/poker.cpp:356-372 | every card of a value held twice is counted by the two-pair loop |
| Cards.MarksOneValue | src/poker.cpp:356-372 | with a single value held twice, the two-pair loop counts only cards of that value |
| Cards.TwoPairMeaning | src/poker.cpp:356-372 | the two-pair test holds exactly for two distinct values held twice, or one value held three times among the first six cards |
| Cards.TwoPairHasPair | src/poker.cpp:343-372 | a two pair is a pair |
| Cards.TestFull | src/poker.cpp:409-428 | the loop answers whether the first six cards include one with a value held exactly twice and one with a value held exactly three times |
| Cards.FullMeaning | src/poker.cpp:409-428 | the full-house test holds exactly when one value is held three times and another exactly twice |
| Cards.TestStraight | src/poker.cpp:387-407 | the loop answers whether some card of value at most a ten starts five consecutive values |
| Cards.StraightMeaning | src/poker.cpp:387-407 | a straight is five consecutive values, the lowest at most a ten |
| Cards.NoWheel | src/poker.cpp:393-395 | an ace never starts a straight: ace to five with no six is no straight |
| Cards.DominantColor | src/poker.cpp:308-316 | the dominant colour is always Club, counted once |
| Cards.TestFlush | src/poker.cpp:430-432 | the flush test never holds |
| Cards.TestRoyalFlush | src/poker.cpp:374-385 | the royal-flush test never holds |
| Cards.TestStraightFlush | src/poker.cpp:434-436 | the straight-flush test never holds |
| Cards.CardBefore | src/poker.cpp:495-499 | the ace-first comparator orders cards by decreasing value |
| Showdown.KindIndex | src/poker.cpp:268-280 | the ten kinds have positions below 10, weakest first |
| Showdown.SameCombo | src/poker.cpp:285-291 | `==` holds exactly for the same kind and the same value card by card |
| Showdown.EncodeBound | src/poker.cpp:295 | five card values read in base 13 stay below 13 to the fifth |
| Showdown.LexEncode | src/poker.cpp:295 | the base-13 reading embeds the lexicographic order of value sequences, and equality |
| Showdown.RankOrder | src/poker.cpp:285-303 | `>`, `<` and `==` of combinations are `>`, `<` and `=` of their ranks |
| Showdown.Trichotomy | src/poker.cpp:285-303 | exactly one of `<`, `==` and `>` holds between two combinations, and `>` is `<` reversed |
| Showdown.KindOf | src/poker.cpp:461-493 | the classification chain never yields a flush, straight flush or royal flush |
| Showdown.Classify | src/poker.cpp:461-493 | the if-chain computes the kind of the hand |
| Showdown.RepeatsArePairs | src/poker.cpp:461-493 | every kind tested before the pair implies a pair |
| Showdown.HighCardExact | src/poker.cpp:461-493 | a hand is High exactly when its seven values differ and it is no straight |
| Showdown.TwoTripsMissed | src/poker.cpp:409-428 | two three-of-a-kinds in one hand are no full house, and the chain calls the hand a three of a kind |
| Showdown.TopFiveHighest | src/poker.cpp:495-501 | the five cards kept come from the hand in decreasing value, and neither card left out is higher than the fifth |
| Showdown.ComboOf | src/poker.cpp:442-501 | each player's combination has five cards and carries the player's number |
| Showdown.CombosOfOwned | src/poker.cpp:442-502 | each listed combination belongs to a player who has not folded |
| Showdown.CombosOfAscending | src/poker.cpp:442-502 | combinations are listed in increasing player order |
| Showdown.CombosOfCover | src/poker.cpp:442-502 | every player still in is listed |
| Showdown.BuildCombos | src/poker.cpp:440-502 | the loop lists the combinations of the players who have not folded, in player order |
| Showdown.ComboFor | src/poker.cpp:443-501 | a player's combination is the kind of its seven cards and their five highest |
| Showdown.RunEnd | src/poker.cpp:506-512 | the winner loop stops at the first entry not `==` to the previous one |
| Showdown.LeadingWinners | src/poker.cpp:506-512 | the winners are the players of the leading run of equal combinations, in order |
| Showdown.RunIsBest | src/poker.cpp:504-512 | after the descending sort, the leading run is exactly the entries of the best rank |
| Showdown.SortedFacts | src/poker.cpp:504 | the sorted list is a permutation of the combinations with a non-increasing rank |
| Showdown.SortedDistinct | src/poker.cpp:504 | a permutation of combinations with distinct player numbers repeats no combination |
| Showdown.WinnersDistinct | src/poker.cpp:506-512 | no player is named twice among the winners |
| Showdown.WinnerIsBest | src/poker.cpp:504-512 | every winner is still in, and no player still in holds a greater combination |
| Showdown.BestIsWinner | src/poker.cpp:504-512 | every player still in whom nobody beats is a winner |
| Showdown.WinnersExact | src/poker.cpp:504-512 | the winners are exactly the unbeaten players still in |
| Showdown.PickWinners | src/poker.cpp:264-513 | `pick_winners` returns at least one player and no player twice, and names exactly the players still in whom no other player still in beats |
| Poker.Add64 | src/poker.cpp:171-174 | `size_t` addition is the sum, minus 2^64 when the sum reaches 2^64 |
| Poker.Sub64 | src/poker.cpp:171 | `size_t` subtraction is the difference, plus 2^64 when it would be negative |
| Poker.Min64 | src/poker.cpp:78-81 | `std::min` is one of its arguments and bounds both |
| Poker.Max64 | src/poker.cpp:183 | `std::max` is one of its arguments and bounds both |
| Poker.Decimal | src/poker.cpp:240 | `std::to_string` writes a non-empty string of decimal digits |
| Poker.DecimalRoundTrip | src/poker.cpp:240 | reading the digits back gives the number |
| Poker.StringifyDistinguishes | src/poker.cpp:237-245 | two actions with the same text are of the same kind, and two raises with the same text have the same amount |
| Poker.Applied | src/poker.cpp:160-195 | an action changes only the acting player among the players |
| Poker.FollowMoves | src/poker.cpp:167-176 | a follow moves the difference to the running bet from the stack to the pot, and matches the running bet |
| Poker.RaiseMoves | src/poker.cpp:177-188 | a raise moves its amount from the stack to the pot and bets, and the running bet becomes the larger of itself and the amount |
| Poker.ChipsConserved | src/poker.cpp:160-195 | every allowed action keeps the stacks plus the pot, modulo 2^64 |
| Poker.QuietActions | src/poker.cpp:162-166 | check, none and fold move no chips; a fold only marks the player |
| Poker.BlindsMove | src/poker.cpp:61-117 | the big blind pays `min(stack, big_blind)` and the player before them pays `min(stack, big_blind / 2)`; the pot holds both; the chips are kept; everyone's bets are cleared, the others' stacks are unchanged, and exactly the broke players are folded |
| Poker.BlindsPot | src/poker.cpp:78-80 | the pot after the blinds is the two amounts taken, modulo 2^64 |
| Poker.BlindsPlayer | src/poker.cpp:61-117 | each player after the blinds: bets cleared, the blind paid if any, folded when broke |
| Poker.Game.constructor | src/poker.cpp:20-26 | three players of 500 chips, a big blind of 10 on player 0, an empty pot and no running bet |
| Poker.Game.Over | src/poker.cpp:28-37 | the game is over exactly when at most one player has chips |
| Poker.Game.Apply | src/poker.cpp:160-195 | the table becomes the applied table and the other fields are unchanged |
| Poker.Game.Act | src/poker.cpp:197-228 | a broke player does nothing; in a raised turn the agent folds exactly when the running bet exceeds its stack; otherwise it raises `min(running_bet + 10, stack)` when another player could cover that, and follows when none could |
| Poker.Game.PostBlinds | src/poker.cpp:61-117 | the hand starts with the blinds posted, the big-blind index reduced modulo 3, and the running bet equal to the big blind |
| Poker.Game.ResetBets | src/poker.cpp:61-65 | every player's bets are cleared and nobody is folded |
| Poker.Game.FoldBroke | src/poker.cpp:113-117 | every player without chips is folded, the others keep their flag |
| Poker.Game.PayWinners | src/poker.cpp:149-155 | each winner, once per time they are listed, gains the pot divided by the number of winners; the big-blind index moves on |
| Poker.PaidShares | src/poker.cpp:149-151 | a player's stack grows by one share per time they are listed, modulo 2^64 |
| Poker.PaidCredit | src/poker.cpp:149-151 | each time a player is listed adds one share to their stack |
| Poker.CreditIsSum | src/poker.cpp:151 | adding the shares one at a time, each wrapping, is adding their total once, wrapping |
| Poker.SharesIsProduct | src/poker.cpp:151 | the shares added up are their number times the share |

## Left out

- The user interface, threads, timers, printing (`print_game`, the verbose
  `printf`s) and `Experiments`. None of them changes the state modelled here.
- `Game::play_game` and the `round` lambda of `play_new_hand`. The model has the
  steps that round calls: `Agent::act` as `Poker.Game.Act` and `Game::apply` as
  `Poker.Game.Apply`. It does not have the loop over seats or the second betting
  pass.
- Dealing and the shuffle (`Deck`, `rand() % draw.size()`). They draw from the C
  random generator, so the modelled showdown takes the players' hands and the board
  as given.
- `Genome::to_string` and the code after the first `return` of `Genome::generate`
  (the static hand-written genome). The first is text output; the second is never
  reached.
- Single-precision rounding, `expf` and `powf`. Floats are modelled as reals, and
  the two functions are parameters (`logistic`, `pow`).
- Selection.DivisorNonZero: takes the premise `PowNonZero`, that the power function
  gives no zero divisor. The source divides by it unchecked.
- `std::sort` is not stable and its order of equal elements is unspecified. The
  model sorts with an insertion sort, which keeps the input order of equal elements.
  That is one order `std::sort` may produce, not the only one. So
  `Populations.TruncateEach`, `Populations.Cull`, `Populations.Population.Select` and
  `Selection.SelectOutcome` describe that particular tie order: which of several
  equally fit genomes survive. `Selection.TruncateKeepsFittest`,
  `Selection.FinishKeepsFittest` and the `Showdown` lemmas hold for every order.
- Populations.Erase and Selection.Survivors: take the stateful `remove_if` predicate
  (src/IA/Population.cpp:40-47) to be one object, applied once to each genome in
  order, so `Selection.SurvivorsStep` reads one running counter. A library that
  passes the functor by reference behaves this way. One that copies it, as
  libstdc++'s `remove_if` does when it hands the predicate to `find_if`, restarts
  the counter after the first removed genome and erases other genomes.
- The 32-bit `int` of `Innov_N` and its overflow. The counter is a `nat`.
- The uninitialised `Action::value` of a non-raise action. It is modelled as a
  field that such actions do not read.
- Agent pointers and player names. They carry no logic, so a player is its cards,
  stack, bets and folded flag.
- `fitness_sum` in `selection`. It is computed and never read.
- Networks.Network.Generate: requires that every enabled gene enters a node. The
  source indexes `links[x.out]` unchecked, and every genome this program builds
  satisfies the requirement.
- Showdown.PickWinners: requires that some player has not folded. With everyone
  folded the source reads `combos.front()` of an empty vector, which is undefined.
- Poker.Game.Apply: requires the conditions that `Game::apply` `assert`s
  (`Poker.Allowed`). With the asserts compiled out, the source would go on with a
  wrapped stack.
- Reproduction.Breed: requires `Viable`, a first parent with a connection to split
  and a node that is not an input; so do `Mate`, `Populations.Refill` and
  `Populations.Population.Reproduce` through the genomes they breed from. `add_node_mutation` draws from an empty list otherwise,
  and every genome of a population made by `Population::generate` with at least one
  input and one output is viable.
- Populations.Refill and Populations.Population.Reproduce: require
  `0 < |genomes| <= populationSize`. With no genome the roulette falls through to
  position 0 and the source reads `genomes[0]` of an empty vector
  (src/IA/Population.cpp:83, 104). With more genomes than `population_size`, the
  `size_t` subtraction for `to_birth` wraps (src/IA/Population.cpp:74), and the loop
  would run about 2^64 times.
- `Genome::marked`, and the population's `mutation_weight_step` and
  `mutation_del_node`. No modelled code reads them. The genome's own
  `mutation_weight_step` is read: `Genome::weight_mutation` scales its normal draw by it.
