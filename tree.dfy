/** The layered Merkle accumulator `Tree<H>` of src/tree.rs.

    A tree holds a list of layers (`nodes`, layer 0 meant for the leaves) and a
    buffer of pending leaves (`leavesCache`). `Insert` hashes bytes into the
    buffer; `Commit` builds a branch from the buffer with `FromLeafNodes` and
    appends each branch layer onto the tree layer of the same index.

    As written, `from_leaf_nodes` empties its working layer before it computes
    how many pairs to hash, so it never produces a parent layer: the branch is
    always the single layer of leaves. Everything below is proved about the
    code as written. */
module MerkleTree {
  import opened Hashing

  /** `Node<H>` of src/tree.rs: nothing but a digest. */
  datatype Node = Node(value: Digest)
  {
    /** `PartialEq for Node`: compares digests, which is exactly equality of
        nodes. */
    function Eq(other: Node): (r: bool)
      ensures r <==> this == other
    {
      value == other.value
    }
  }

  /** `Node::new`: the leaf node of some input bytes. */
  function NewNode(hash: Hash, bytes: seq<byte>): (n: Node)
    ensures n.value == hash(bytes)
  {
    Node(hash(bytes))
  }

  /** The `map(Node::new)` of `from_leaves`, one leaf per input, in order. */
  function LeafNodes(hash: Hash, items: seq<seq<byte>>): (r: seq<Node>)
    ensures |r| == |items|
    ensures forall i :: 0 <= i < |items| ==> r[i].value == hash(items[i])
  {
    if items == [] then [] else [NewNode(hash, items[0])] + LeafNodes(hash, items[1..])
  }

  /** `Vec<Node>` equality: same length, pairwise `Node::eq`. */
  predicate LayerEq(x: seq<Node>, y: seq<Node>)
  {
    |x| == |y| && forall i :: 0 <= i < |x| ==> x[i].Eq(y[i])
  }

  /** `Vec<Vec<Node>>` equality: same height, pairwise layer equality. */
  predicate LayersEq(a: seq<seq<Node>>, b: seq<seq<Node>>)
  {
    |a| == |b| && forall i :: 0 <= i < |a| ==> LayerEq(a[i], b[i])
  }

  /** Comparing layers node by node with `Node::eq` is equality of the
      layer lists. */
  lemma LayersEqIsEquality(a: seq<seq<Node>>, b: seq<seq<Node>>)
    ensures LayersEq(a, b) <==> a == b
  {
    if LayersEq(a, b) {
      forall i | 0 <= i < |a| ensures a[i] == b[i] {
        assert LayerEq(a[i], b[i]);
      }
    }
  }

  function Max(x: int, y: int): int
  {
    if x < y then y else x
  }

  /** Layer `i` of a layer list, an absent layer read as empty. */
  function LayerAt(layers: seq<seq<Node>>, i: int): seq<Node>
  {
    if 0 <= i < |layers| then layers[i] else []
  }

  /** The layers after splicing `branch` onto `tree` by index: the tree is
      first padded with empty layers up to the branch's height, then branch
      layer `i` is appended to tree layer `i`. */
  function MergeLayers(tree: seq<seq<Node>>, branch: seq<seq<Node>>): seq<seq<Node>>
  {
    seq(Max(|tree|, |branch|), i => LayerAt(tree, i) + LayerAt(branch, i))
  }

  /** The hashing loop of `from_leaf_nodes` (src/tree.rs:65-75): pushes onto
      `current` the hash of each of the first `count` pairs of layer
      `layerNum`, left digest first. The layer is indexed only when the loop
      runs at all. */
  method PushPairHashes(hash: Hash, tree: seq<seq<Node>>, layerNum: nat, count: nat, current: seq<Node>)
    returns (next: seq<Node>)
    requires count > 0 ==> layerNum < |tree| && 2 * count <= |tree[layerNum]|
    ensures |next| == |current| + count
    ensures next[..|current|] == current
    ensures forall i :: 0 <= i < count ==>
      next[|current| + i].value == hash(tree[layerNum][2 * i].value + tree[layerNum][2 * i + 1].value)
  {
    next := current;
    for i := 0 to count
      invariant |next| == |current| + i
      invariant next[..|current|] == current
      invariant forall j :: 0 <= j < i ==>
        next[|current| + j].value == hash(tree[layerNum][2 * j].value + tree[layerNum][2 * j + 1].value)
    {
      var left := tree[layerNum][i * 2];
      var right := tree[layerNum][i * 2 + 1];
      next := next + [Node(hash(left.value + right.value))];
    }
  }

  class Tree {
    /** The type parameter `H`. */
    const hash: Hash
    var nodes: seq<seq<Node>>
    var leavesCache: seq<Node>

    /** `Tree::new`: no layers, nothing pending. */
    constructor (hash: Hash)
      ensures this.hash == hash
      ensures nodes == [] && leavesCache == []
    {
      this.hash := hash;
      nodes := [];
      leavesCache := [];
    }

    /** `Tree::from`: the given layers, nothing pending. */
    constructor From(hash: Hash, nodes: seq<seq<Node>>)
      ensures this.hash == hash
      ensures this.nodes == nodes && leavesCache == []
    {
      this.hash := hash;
      this.nodes := nodes;
      leavesCache := [];
    }

    /** `PartialEq for Tree`: the layers decide, the pending leaves do not. */
    function Eq(other: Tree): (r: bool)
      reads this, other
      ensures r <==> nodes == other.nodes
    {
      LayersEqIsEquality(nodes, other.nodes);
      LayersEq(nodes, other.nodes)
    }

    /** `Tree::from_leaf_nodes`. The caller's vector is drained into the
        working layer (returned as `drained`, now empty), which is pushed as
        layer 0. The `while` loop then clears the working layer and only
        afterwards reads its length to count the pairs to hash: zero. So the
        loop body runs once when there are two leaves or more and otherwise
        not at all (`passes`, the final `layer_num`, counts its passes); it
        pushes nothing and leaves a working layer of length 0, and the result
        is the one layer of leaves, in input order, also for no leaves. */
    static method FromLeafNodes(hash: Hash, leaves: seq<Node>) returns (tree: Tree, drained: seq<Node>, ghost passes: nat)
      ensures fresh(tree) && tree.hash == hash
      ensures tree.nodes == [leaves] && tree.leavesCache == []
      ensures drained == []
      ensures passes == if |leaves| > 1 then 1 else 0
    {
      var layers: seq<seq<Node>> := [];
      var currentLayer: seq<Node> := [];
      currentLayer, drained := currentLayer + leaves, [];
      assert currentLayer == leaves;
      layers := layers + [currentLayer];
      var layerNum: nat := 0;
      while |currentLayer| > 1
        invariant layers == [leaves]
        invariant layerNum <= 1
        invariant layerNum == 0 ==> currentLayer == leaves
        invariant layerNum == 1 ==> currentLayer == [] && |leaves| > 1
        decreases |currentLayer|
      {
        currentLayer := [];
        currentLayer := PushPairHashes(hash, layers, layerNum, |currentLayer| / 2, currentLayer);
        layerNum := layerNum + 1;
      }
      passes := layerNum;
      tree := new Tree.From(hash, layers);
    }

    /** `Tree::from_leaves`: hash every input into a leaf node, then
        `from_leaf_nodes`. */
    static method FromLeaves(hash: Hash, leaves: seq<seq<byte>>) returns (tree: Tree)
      ensures fresh(tree) && tree.hash == hash
      ensures tree.nodes == [LeafNodes(hash, leaves)] && tree.leavesCache == []
    {
      var nodes := LeafNodes(hash, leaves);
      ghost var passes;
      tree, nodes, passes := FromLeafNodes(hash, nodes);
    }

    /** `Tree::insert`: the leaf node of `value` goes to the end of the
        pending leaves; the layers are untouched. */
    method Insert(value: seq<byte>)
      modifies this
      ensures leavesCache == old(leavesCache) + [NewNode(hash, value)]
      ensures nodes == old(nodes)
    {
      leavesCache := leavesCache + [NewNode(hash, value)];
    }

    /** `Tree::commit`: builds a branch from a copy of the pending leaves,
        clears them, pads the layers up to the branch's height and appends
        each branch layer to the tree layer of the same index. Since the
        branch is the single layer of pending leaves, the pending leaves land
        at the end of layer 0 (created if missing) and every other layer is
        unchanged. */
    method Commit()
      modifies this
      ensures nodes == MergeLayers(old(nodes), [old(leavesCache)])
      ensures |nodes| == Max(|old(nodes)|, 1)
      ensures nodes[0] == LayerAt(old(nodes), 0) + old(leavesCache)
      ensures forall i :: 1 <= i < |nodes| ==> nodes[i] == old(nodes[i])
      ensures leavesCache == []
    {
      var branch, _, _ := FromLeafNodes(hash, leavesCache);
      leavesCache := [];
      ghost var branchLayers := branch.nodes;

      if |branch.nodes| > |nodes| {
        var missing := |branch.nodes| - |nodes|;
        for k := 0 to missing
          invariant |nodes| == |old(nodes)| + k
          invariant forall j :: 0 <= j < |nodes| ==> nodes[j] == LayerAt(old(nodes), j)
          invariant branch.nodes == branchLayers && leavesCache == []
        {
          nodes := nodes + [[]];
        }
      }

      ghost var padded := nodes;
      var i := 0;
      while i < |nodes| && i < |branch.nodes|
        invariant 0 <= i <= |branchLayers| <= |padded|
        invariant |nodes| == |padded| && |branch.nodes| == |branchLayers|
        invariant forall j :: 0 <= j < i ==> nodes[j] == padded[j] + branchLayers[j]
        invariant forall j :: i <= j < |nodes| ==> nodes[j] == padded[j]
        invariant forall j :: i <= j < |branchLayers| ==> branch.nodes[j] == branchLayers[j]
        invariant leavesCache == []
      {
        nodes := nodes[i := nodes[i] + branch.nodes[i]];
        branch.nodes := branch.nodes[i := []];
        i := i + 1;
      }
      assert |nodes| == Max(|old(nodes)|, |branchLayers|);
      forall j | 0 <= j < |nodes|
        ensures nodes[j] == LayerAt(old(nodes), j) + LayerAt(branchLayers, j)
      {
        if j >= |branchLayers| {
          assert nodes[j] == padded[j] + [];
        }
      }
      CommitShape(old(nodes), old(leavesCache));
    }
  }

  /** What one commit does to the layers, read off the merge of a one-layer
      branch: height at least 1, the batch appended to layer 0, the other
      layers untouched. */
  lemma CommitShape(layers: seq<seq<Node>>, batch: seq<Node>)
    ensures |MergeLayers(layers, [batch])| == Max(|layers|, 1)
    ensures MergeLayers(layers, [batch])[0] == LayerAt(layers, 0) + batch
    ensures forall i :: 1 <= i < |MergeLayers(layers, [batch])| ==> MergeLayers(layers, [batch])[i] == layers[i]
  {
  }

  /** The layers after committing each batch in turn. */
  function CommitAll(layers: seq<seq<Node>>, batches: seq<seq<Node>>): seq<seq<Node>>
    decreases |batches|
  {
    if batches == [] then layers else CommitAll(MergeLayers(layers, [batches[0]]), batches[1..])
  }

  /** All batches concatenated, in order. */
  function Flatten(batches: seq<seq<Node>>): seq<Node>
  {
    if batches == [] then [] else batches[0] + Flatten(batches[1..])
  }

  /** Two commits in a row are one commit of both batches. */
  lemma CommitTwice(layers: seq<seq<Node>>, x: seq<Node>, y: seq<Node>)
    ensures MergeLayers(MergeLayers(layers, [x]), [y]) == MergeLayers(layers, [x + y])
  {
    var once := MergeLayers(layers, [x]);
    var twice := MergeLayers(once, [y]);
    var both := MergeLayers(layers, [x + y]);
    CommitShape(layers, x);
    CommitShape(once, y);
    CommitShape(layers, x + y);
    assert |twice| == |both|;
    forall i | 0 <= i < |twice| ensures twice[i] == both[i] {
      if i == 0 {
        assert twice[0] == (LayerAt(layers, 0) + x) + y;
      }
    }
  }

  /** Committing a series of batches is committing their concatenation once. */
  lemma {:induction false} CommitAllIsOneCommit(layers: seq<seq<Node>>, batches: seq<seq<Node>>)
    requires batches != []
    ensures CommitAll(layers, batches) == MergeLayers(layers, [Flatten(batches)])
    decreases |batches|
  {
    var rest := batches[1..];
    if rest == [] {
      assert Flatten(batches) == batches[0] + Flatten(rest) == batches[0];
    } else {
      CommitAllIsOneCommit(MergeLayers(layers, [batches[0]]), rest);
      CommitTwice(layers, batches[0], Flatten(rest));
    }
  }

  /** The scenario of `test_tree`, for any batching: starting from
      `Tree::new`, inserting leaves in any number of insert/commit rounds
      (at least one commit) yields exactly the layers of
      `from_leaf_nodes` over all leaves, i.e. the single leaf layer; with no
      commit at all the tree has no layers and differs from it. */
  lemma {:induction false} BatchingIsInvisible(batches: seq<seq<Node>>)
    ensures batches != [] ==> CommitAll([], batches) == [Flatten(batches)]
    ensures batches == [] ==> CommitAll([], batches) == []
  {
    if batches != [] {
      CommitAllIsOneCommit([], batches);
      CommitShape([], Flatten(batches));
      var flat := Flatten(batches);
      assert MergeLayers([], [flat])[0] == [] + flat == flat;
    }
  }

  /** Hashing two lists of inputs into leaf nodes, one list after the
      other, gives the leaf nodes of the joined list. */
  lemma LeafNodesAppend(hash: Hash, a: seq<seq<byte>>, b: seq<seq<byte>>)
    ensures LeafNodes(hash, a + b) == LeafNodes(hash, a) + LeafNodes(hash, b)
  {
  }

  /** `test_tree` (src/tree.rs:127-146), for an arbitrary hash function. */
  method TestTree(hash: Hash) returns (equal: bool)
    ensures equal
  {
    var tree := new Tree(hash);
    tree.Insert([1, 2, 3]);
    tree.Insert([4, 5, 6]);
    tree.Insert([7, 8, 9]);

    tree.Commit();

    tree.Insert([10, 11, 12]);

    tree.Commit();

    var nodes := [
      NewNode(hash, [1, 2, 3]),
      NewNode(hash, [4, 5, 6]),
      NewNode(hash, [7, 8, 9]),
      NewNode(hash, [10, 11, 12])
    ];
    var expected, _, _ := Tree.FromLeafNodes(hash, nodes);
    equal := expected.Eq(tree);
  }
}
