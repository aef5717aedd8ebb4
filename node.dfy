/** The owned binary-tree node of src/tree/node.rs.

    A node is a leaf or a branch that owns its two children; a branch stores
    the hash of its children's digests, left first. The file is not declared
    as a module of the crate (src/tree.rs has no `mod node;`), so nothing
    calls these constructors; their contracts are stated here all the same. */
module MerkleNode {
  import opened Hashing

  datatype Option<T> = None | Some(value: T)

  /** `Node` of src/tree/node.rs; `Box` ownership is a datatype's own
      nesting. */
  datatype Node = Node(leaf: bool, value: Digest, left: Option<Node>, right: Option<Node>)

  /** A node as the two constructors build it: a leaf has no children; an
      internal node has both, stores the hash of their digests (left first)
      and has well-formed children. */
  predicate WellFormed(hash: Hash, n: Node)
  {
    match n.left
    case None => n.right.None? && n.leaf
    case Some(l) =>
      match n.right
      case None => false
      case Some(r) =>
        && !n.leaf
        && n.value == hash(l.value + r.value)
        && WellFormed(hash, l)
        && WellFormed(hash, r)
  }

  /** `Node::new_leaf`: the digest is kept unchanged, there are no
      children, and the result is well formed whatever the hash. */
  function NewLeaf(value: Digest): (n: Node)
    ensures n.value == value
    ensures n.leaf && n.left == None && n.right == None
    ensures forall hash: Hash :: WellFormed(hash, n)
  {
    Node(true, value, None, None)
  }

  /** `Node::new_branch`: stores the hash of the two digests, left first,
      and owns both children. The result is well formed exactly when both
      children are. */
  function NewBranch(hash: Hash, left: Node, right: Node): (n: Node)
    ensures n.value == hash(left.value + right.value)
    ensures n.left == Some(left) && n.right == Some(right) && !n.leaf
    ensures WellFormed(hash, n) <==> WellFormed(hash, left) && WellFormed(hash, right)
  {
    var value := hash(left.value + right.value);
    Node(false, value, Some(left), Some(right))
  }

  /** A branch's digest depends on its children's digests only, not on
      what lies below them. */
  lemma BranchValueOnlyFromDigests(hash: Hash, l: Node, r: Node, l': Node, r': Node)
    requires l.value == l'.value && r.value == r'.value
    ensures NewBranch(hash, l, r).value == NewBranch(hash, l', r').value
  {
  }

  /** A program made only of `new_leaf` and `new_branch` calls. */
  datatype Construction = LeafOf(digest: Digest) | BranchOf(left: Construction, right: Construction)

  /** The node such a program builds. */
  function Build(hash: Hash, c: Construction): Node
  {
    match c
    case LeafOf(d) => NewLeaf(d)
    case BranchOf(l, r) => NewBranch(hash, Build(hash, l), Build(hash, r))
  }

  /** Every node built only with `new_leaf` and `new_branch` is well formed. */
  lemma {:induction false} BuiltIsWellFormed(hash: Hash, c: Construction)
    ensures WellFormed(hash, Build(hash, c))
  {
    match c
    case LeafOf(d) =>
    case BranchOf(l, r) =>
      BuiltIsWellFormed(hash, l);
      BuiltIsWellFormed(hash, r);
  }

  /** The construction that rebuilds a well-formed node. */
  function Deconstruct(hash: Hash, n: Node): Construction
    requires WellFormed(hash, n)
  {
    match n.left
    case None => LeafOf(n.value)
    case Some(l) =>
      match n.right
      case Some(r) => BranchOf(Deconstruct(hash, l), Deconstruct(hash, r))
  }

  /** Conversely, every well-formed node is what some sequence of
      `new_leaf` and `new_branch` calls builds: well formed means exactly
      constructible. */
  lemma {:induction false} WellFormedIsBuilt(hash: Hash, n: Node)
    requires WellFormed(hash, n)
    ensures Build(hash, Deconstruct(hash, n)) == n
  {
    match n.left
    case None =>
    case Some(l) =>
      match n.right
      case Some(r) =>
        WellFormedIsBuilt(hash, l);
        WellFormedIsBuilt(hash, r);
  }
}
