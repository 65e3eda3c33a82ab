/** The digraph the sampler perturbs: a boolean arc set over a fixed node set,
    plus the snowball-sampling zone data used by conditional estimation.
    Only set semantics of the digraph primitives is modelled. */
module Graphs {

  type Node = nat
  type Arc = (Node, Node)

  /** Static data of a loaded digraph: node count and snowball zone information
      (wave number per node, number of waves, the inner nodes, and the
      number of ties each node has to the preceding wave). */
  datatype Design = Design(
    numNodes: nat,
    zone: seq<nat>,
    maxZone: nat,
    innerNodes: seq<Node>,
    prevWaveDegree: seq<nat>)
  {
    /** Every per-node table covers every node and every inner node is a node. */
    predicate Valid()
    {
      |zone| == numNodes && |prevWaveDegree| == numNodes &&
      forall k :: 0 <= k < |innerNodes| ==> innerNodes[k] < numNodes
    }
  }

  /** Arcs only join distinct nodes of the graph. */
  predicate ArcsWellFormed(arcs: set<Arc>, numNodes: nat)
  {
    forall a | a in arcs :: a.0 < numNodes && a.1 < numNodes && a.0 != a.1
  }

  /** Arc existence ignoring direction. */
  predicate Connected(arcs: set<Arc>, i: Node, j: Node)
  {
    (i, j) in arcs || (j, i) in arcs
  }

  /** No pair of nodes is joined in both directions. */
  predicate NoReciprocated(arcs: set<Arc>)
  {
    forall a | a in arcs :: (a.1, a.0) !in arcs
  }

  class Digraph {
    const design: Design
    var arcs: set<Arc>

    predicate Valid()
      reads this
    {
      design.Valid() && ArcsWellFormed(arcs, design.numNodes)
    }

    constructor (d: Design, initial: set<Arc>)
      requires d.Valid() && ArcsWellFormed(initial, d.numNodes)
      ensures Valid() && design == d && arcs == initial
    {
      design := d;
      arcs := initial;
    }

    method InsertArc(i: Node, j: Node)
      modifies this
      ensures arcs == old(arcs) + {(i, j)}
    {
      arcs := arcs + {(i, j)};
    }

    method RemoveArc(i: Node, j: Node)
      modifies this
      ensures arcs == old(arcs) - {(i, j)}
    {
      arcs := arcs - {(i, j)};
    }
  }
}
