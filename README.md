# Merkle hash trees of key-transparency, modelled in Dafny

This project models the two hash-tree components of the key-transparency
repository and proves what they do.

- `Tree<H>` in `src/tree.rs` is a layered accumulator. It holds a list of
  layers (`nodes`) and a buffer of pending leaves (`leaves_cache`).
  `insert` hashes bytes into a leaf and buffers it. `commit` builds a branch
  from the buffer with `from_leaf_nodes`, then appends each branch layer onto
  the tree layer of the same index, adding empty layers first if the branch
  is taller. It is modelled by the class `MerkleTree.Tree` (file `tree.dfy`).
  `from_leaf_nodes`, `insert` and `commit` are methods with the source's
  loops.
- `Node` in `src/tree/node.rs` is an owned binary-tree node: a leaf keeps
  its digest, a branch stores the hash of its children's digests, left
  first. It is modelled by the datatype `MerkleNode.Node` (file `node.dfy`)
  and two functions. The crate does not compile this file today, because
  `src/tree.rs` declares no `mod node;`. Its constructors are modelled
  anyway.

The hash function is the type parameter `H` (SHA-256 in `node.rs`). It is
modelled as a value `hash: Hash`, any total function from byte strings to
byte strings (file `hashing.dfy`). Nothing is assumed about it. Feeding `a`
then `b` to a hasher and finalizing is `hash(a + b)`.

The model follows the code as written. In `from_leaf_nodes` the `while` loop
clears `current_layer` (line 63) before the `for` loop reads its length to
count the pairs (line 65). So the pairing body never runs and the result is
always the single layer of leaves. Consequences proved here:

- `commit` only ever appends the buffered leaves to layer 0 and never
  touches other layers.
- Any split of the same leaves into insert/commit rounds, with at least one
  commit, gives a tree equal to `from_leaf_nodes` of all the leaves. This
  covers the repository's `test_tree` scenario.

## Model

| member | source | states |
|---|---|---|
| `MerkleTree.Node.Eq` | src/tree.rs:26-30 | `Node` equality compares digests, and it holds exactly when the two nodes are equal |
| `MerkleTree.NewNode` | src/tree.rs:11-17 | `Node::new` of some bytes is the node whose digest is the hash of exactly those bytes |
| `MerkleTree.LeafNodes` | src/tree.rs:84 | the `map(Node::new)` of `from_leaves` gives one node per input, in input order, and node `i`'s digest is the hash of input `i` |
| `MerkleTree.LeafNodesAppend` | src/tree.rs:84 | hashing two lists of inputs into leaves gives the leaves of the first list followed by those of the second |
| `MerkleTree.LayersEqIsEquality` | src/tree.rs:115-119 | comparing two layer lists layer by layer and node by node with `Node::eq` holds exactly when the lists are equal |
| `MerkleTree.Tree.Eq` | src/tree.rs:115-119 | two trees are equal exactly when their layers are equal; the pending leaves play no part |
| `MerkleTree.PushPairHashes` | src/tree.rs:65-75 | the pairing loop appends exactly `count` nodes and keeps what was there before; appended node `i` holds the hash of pair `i` of the layer, left digest then right digest; the layer is read only when `count > 0` |
| `MerkleTree.Tree.constructor` | src/tree.rs:39-44 | a new tree has no layers and no pending leaves |
| `MerkleTree.Tree.From` | src/tree.rs:46-51 | the tree holds exactly the given layers and no pending leaves |
| `MerkleTree.Tree.FromLeafNodes` | src/tree.rs:53-81 | the result's layers are exactly `[leaves]`, in input order, and `[[]]` for no leaves; the caller's vector is left empty; the `while` body runs once when there are at least two leaves and otherwise not at all |
| `MerkleTree.Tree.FromLeaves` | src/tree.rs:83-86 | the result's layers are exactly the one layer of the inputs' leaf nodes, in input order, with nothing pending |
| `MerkleTree.Tree.Insert` | src/tree.rs:88-90 | the leaf node of the input goes to the end of the pending leaves; the layers are unchanged |
| `MerkleTree.Tree.Commit` | src/tree.rs:92-106 | the new layers are the old layers with the one-layer branch of pending leaves spliced on by index; the height becomes max(old height, 1); layer 0 becomes old layer 0 (empty if missing) followed by the pending leaves; all other layers are unchanged; nothing is left pending |
| `MerkleTree.CommitShape` | src/tree.rs:97-105 | splicing a one-layer branch onto any layers gives height max(old, 1), appends the branch to layer 0 and leaves every higher layer unchanged |
| `MerkleTree.CommitTwice` | src/tree.rs:92-106 | two commits in a row give the same layers as one commit of both batches together |
| `MerkleTree.CommitAllIsOneCommit` | src/tree.rs:92-106 | committing any non-empty series of batches gives the same layers as one commit of their concatenation |
| `MerkleTree.BatchingIsInvisible` | src/tree.rs:127-146 | from a new tree, any non-empty series of commits gives exactly `[all leaves in order]`, which are the layers of `from_leaf_nodes` over all leaves; with no commit the tree has no layers |
| `MerkleTree.TestTree` | src/tree.rs:127-146 | the repository's test holds for every hash function: three inserts, a commit, one insert and a commit give a tree equal to `from_leaf_nodes` of the four leaves |
| `MerkleNode.NewLeaf` | src/tree/node.rs:11-18 | a new leaf keeps the given digest unchanged, has no children, is marked a leaf, and is well formed for every hash |
| `MerkleNode.NewBranch` | src/tree/node.rs:20-32 | a new branch stores the hash of the left digest followed by the right digest, owns `left` as left child and `right` as right child, is not a leaf, and is well formed exactly when both children are |
| `MerkleNode.BranchValueOnlyFromDigests` | src/tree/node.rs:21-24 | a branch's digest depends only on its children's digests, not on the nodes below them |
| `MerkleNode.BuiltIsWellFormed` | src/tree/node.rs:11-32 | every node built only with `new_leaf` and `new_branch` is well formed: it is a leaf exactly when it has no children, and every internal node has both children and stores the hash of their digests |
| `MerkleNode.WellFormedIsBuilt` | src/tree/node.rs:11-32 | every well-formed node is what some sequence of `new_leaf` and `new_branch` calls builds |

## Left out

- The `Debug` impls (src/tree.rs:20-24, 109-113) and the `println!` in `commit` (src/tree.rs:95): formatting and console output.
- SHA-256 and the `digest` crate: foreign library code. The hash is a parameter, with no injectivity or collision resistance assumed.
- Fixed digest widths (`Output<H>`, `[u8; 32]`): nothing in the code depends on them.
- `#[derive(Clone)]`, `Box` and Rust ownership: a Dafny sequence or datatype value is already a copy.
- `MerkleTree.Tree.FromLeafNodes`: the `&mut Vec` argument is an input value plus the returned `drained` value. A Rust mutable borrow cannot alias, so nothing is lost.
- `MerkleTree.Tree.FromLeafNodes`: the inner `for` loop is the separate method `PushPairHashes`. Its pair count is computed after the clear, exactly as in the source. Inline, the loop body would be provably dead code.
- `MerkleTree.Tree.FromLeafNodes`: `layer_num` is an unbounded `nat`, not a `usize`. It never exceeds 1, so overflow cannot arise.
- `MerkleTree.Tree.Eq`: Rust compares only trees of the same `H`. The model compares layers and ignores the trees' `hash` fields.
- Parent layers: the pairing loop (src/tree.rs:65-75) never runs, so none is built.
- Odd-layer pairing, an empty-input error, Merkle proof paths and recomputation of all layers on commit: the code has none of them.
