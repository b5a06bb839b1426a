/**
 * The Merkle root of merkleTree.go. Nodes live in one growing list: the
 * (padded) leaves first, then one parent per step that pairs the two nodes
 * at positions i and i+1 while i advances by two. Children are referred to
 * by their position in that list.
 */
module Merkle {
  import opened Bytes
  import opened Results
  import opened Types
  import Transactions

  datatype MerkleNode = MerkleNode(left: Option<nat>, right: Option<nat>, hash: Digest)

  /** NewMerkleNode: a leaf hashes its data, a parent the concatenation of its children's hashes. */
  function NewMerkleNode(c: Crypto, nodes: seq<MerkleNode>, children: Option<(nat, nat)>, data: Bytes): (r: MerkleNode)
    requires children.Some? ==> children.value.0 < |nodes| && children.value.1 < |nodes|
    ensures r.left.Some? <==> children.Some?
    ensures r.right.Some? <==> children.Some?
    ensures children.None? ==> r.hash == c.sha256(data)
    ensures children.Some? ==>
              r.left.value == children.value.0 && r.right.value == children.value.1 &&
              r.hash == c.sha256(nodes[r.left.value].hash + nodes[r.right.value].hash)
  {
    match children
    case None => MerkleNode(None, None, c.sha256(data))
    case Some((l, r)) => MerkleNode(Some(l), Some(r), c.sha256(nodes[l].hash + nodes[r].hash))
  }

  /** The dataset with its last element repeated when its length is odd. */
  function Padded(dataset: seq<Bytes>): (d: seq<Bytes>)
    requires |dataset| >= 1
    ensures |d| % 2 == 0 && |dataset| <= |d| <= |dataset| + 1
    ensures d[..|dataset|] == dataset
    ensures |dataset| % 2 == 1 ==> d[|dataset|] == dataset[|dataset| - 1]
  {
    if |dataset| % 2 != 0 then dataset + [dataset[|dataset| - 1]] else dataset
  }

  /**
   * The hash at position k of the node list over `leaves` (m of them):
   * a leaf below m, otherwise the parent of positions 2(k-m) and 2(k-m)+1.
   */
  function NodeHash(c: Crypto, leaves: seq<Bytes>, k: nat): Digest
    requires k < 2 * |leaves| - 1
    decreases k
  {
    var m := |leaves|;
    if k < m then c.sha256(leaves[k])
    else c.sha256(NodeHash(c, leaves, 2 * (k - m)) + NodeHash(c, leaves, 2 * (k - m) + 1))
  }

  /** The root hash: the single leaf's hash, or the last node over the padded leaves. */
  function MerkleRoot(c: Crypto, dataset: seq<Bytes>): Digest
    requires |dataset| >= 1
  {
    if |dataset| == 1 then c.sha256(dataset[0])
    else var d := Padded(dataset); NodeHash(c, d, 2 * |d| - 2)
  }

  /**
   * The node list over `d` after the leaves and the first |nodes|-|d|
   * parents: hashes as NodeHash says, leaves without children, the parent
   * at position m+j over positions 2j and 2j+1.
   */
  predicate Built(c: Crypto, d: seq<Bytes>, nodes: seq<MerkleNode>)
  {
    var m := |d|;
    m <= |nodes| <= 2 * m - 1 &&
    (forall k :: 0 <= k < |nodes| ==> nodes[k].hash == NodeHash(c, d, k)) &&
    (forall k :: 0 <= k < m ==> nodes[k].left.None? && nodes[k].right.None?) &&
    (forall k :: m <= k < |nodes| ==> nodes[k].left == Some(2 * (k - m)) && nodes[k].right == Some(2 * (k - m) + 1))
  }

  lemma AppendParent(c: Crypto, d: seq<Bytes>, nodes: seq<MerkleNode>, i: nat)
    requires Built(c, d, nodes) && i == 2 * (|nodes| - |d|) && i + 1 < |nodes|
    ensures Built(c, d, nodes + [NewMerkleNode(c, nodes, Some((i, i + 1)), [])])
  {
    var n := nodes + [NewMerkleNode(c, nodes, Some((i, i + 1)), [])];
    assert n[|nodes|].hash == NodeHash(c, d, |nodes|);
  }

  lemma RootOfPadded(c: Crypto, dataset: seq<Bytes>)
    requires |dataset| > 1
    ensures MerkleRoot(c, dataset) == NodeHash(c, Padded(dataset), 2 * |Padded(dataset)| - 2)
  {
  }

  /** NewMerkleTree: the node list it builds and its last node, the root. */
  method NewMerkleTree(c: Crypto, dataset: seq<Bytes>) returns (nodes: seq<MerkleNode>, root: MerkleNode)
    requires |dataset| >= 1
    ensures nodes != [] && root == nodes[|nodes| - 1]
    ensures root.hash == MerkleRoot(c, dataset)
    ensures |dataset| == 1 ==> nodes == [MerkleNode(None, None, c.sha256(dataset[0]))]
    ensures |dataset| > 1 ==> |nodes| == 2 * |Padded(dataset)| - 1 && Built(c, Padded(dataset), nodes)
  {
    if |dataset| == 1 {
      nodes := [NewMerkleNode(c, [], None, dataset[0])];
      root := nodes[0];
      return;
    }
    var data := dataset;
    if |data| % 2 != 0 {
      data := data + [data[|data| - 1]];
    }
    assert data == Padded(dataset);
    var m := |data|;
    nodes := [];
    for i := 0 to m
      invariant |nodes| == i
      invariant forall k :: 0 <= k < i ==> nodes[k] == MerkleNode(None, None, NodeHash(c, data, k))
    {
      nodes := nodes + [NewMerkleNode(c, nodes, None, data[i])];
    }
    var i := 0;
    while i < |nodes|
      invariant Built(c, data, nodes)
      invariant i == 2 * (|nodes| - m)
      decreases |nodes| - i
    {
      if i == |nodes| - 1 {
        break;
      }
      AppendParent(c, data, nodes, i);
      nodes := nodes + [NewMerkleNode(c, nodes, Some((i, i + 1)), [])];
      i := i + 2;
    }
    assert |nodes| == 2 * m - 1;
    RootOfPadded(c, dataset);
    root := nodes[|nodes| - 1];
  }

  /** The transaction ids, in list order, that the root is computed over. */
  function TxHashes(c: Crypto, transactions: seq<Transaction>): (r: seq<Bytes>)
    ensures |r| == |transactions|
    ensures forall i :: 0 <= i < |transactions| ==> r[i] == Transactions.TxHash(c, transactions[i])
  {
    seq(|transactions|, i requires 0 <= i < |transactions| => Transactions.TxHash(c, transactions[i]))
  }

  /** CalculateMerkleRoot: collect the transaction ids in order, then build the tree. */
  method CalculateMerkleRoot(c: Crypto, transactions: seq<Transaction>) returns (r: Digest)
    requires |transactions| >= 1
    ensures r == MerkleRoot(c, TxHashes(c, transactions))
  {
    var dataset: seq<Bytes> := [];
    for i := 0 to |transactions|
      invariant dataset == TxHashes(c, transactions[..i])
    {
      dataset := dataset + [Transactions.TxHash(c, transactions[i])];
    }
    assert transactions[..|transactions|] == transactions;
    var nodes, root := NewMerkleTree(c, dataset);
    r := root.hash;
  }

  // ------------------------------------------------------------- small trees

  lemma TwoLeafRoot(c: Crypto, a: Bytes, b: Bytes)
    ensures MerkleRoot(c, [a, b]) == c.sha256(c.sha256(a) + c.sha256(b))
  {
    assert Padded([a, b]) == [a, b];
  }

  /** Three leaves: the third is paired with a copy of itself. */
  lemma ThreeLeafRoot(c: Crypto, a: Bytes, b: Bytes, d: Bytes)
    ensures MerkleRoot(c, [a, b, d]) ==
            c.sha256(c.sha256(c.sha256(a) + c.sha256(b)) + c.sha256(c.sha256(d) + c.sha256(d)))
  {
    var p := Padded([a, b, d]);
    assert p == [a, b, d, d];
    assert NodeHash(c, p, 4) == c.sha256(c.sha256(a) + c.sha256(b));
    assert NodeHash(c, p, 5) == c.sha256(c.sha256(d) + c.sha256(d));
  }

  /**
   * Six leaves: the three parents of the first level are not padded; the
   * third is paired with the parent of the first two instead.
   */
  lemma SixLeafRoot(c: Crypto, leaves: seq<Bytes>)
    requires |leaves| == 6
    ensures var h := (k: nat) requires k < 11 => NodeHash(c, leaves, k);
            MerkleRoot(c, leaves) == c.sha256(h(8) + h(9)) &&
            h(9) == c.sha256(h(6) + h(7))
  {
    assert Padded(leaves) == leaves;
  }
}
