/** Node and connection genes: the atomic units a genome is made of. */
module Genes {

  /** The activation functions a node gene may ask for, in declaration order. */
  datatype Activation = Relu | Linear | Sig | Sign

  /** Number of defined activations (the `Count` sentinel of the enumeration). */
  const ActivationCount: nat := 4

  /** The cast from a drawn integer to the activation enumeration. */
  function ActivationOf(k: nat): (a: Activation)
    requires k < ActivationCount
    ensures ActivationIndex(a) == k
  {
    if k == 0 then Relu else if k == 1 then Linear else if k == 2 then Sig else Sign
  }

  /** Position of an activation in its enumeration. */
  function ActivationIndex(a: Activation): (k: nat)
    ensures k < ActivationCount
  {
    match a
    case Relu => 0
    case Linear => 1
    case Sig => 2
    case Sign => 3
  }

  /** The role of a node in the network. */
  datatype Kind = Input | Hidden | Output | LSTM

  datatype NodeGene = NodeGene(func: Activation, kind: Kind, id: nat)

  /** A connection gene; `innov` is its historical (innovation) marker. */
  datatype ConnectionGene = ConnectionGene(inNode: nat, outNode: nat, innov: nat, w: real, enabled: bool)

  datatype Option<T> = None | Some(value: T)

  function Abs(x: real): real { if x < 0.0 then -x else x }

  function Max(a: int, b: int): int { if a < b then b else a }

  function Min(a: int, b: int): int { if a < b then a else b }
}
