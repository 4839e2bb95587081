/** The block index as a forest of parent links, and walks along it. */
module BlockTree {
  import opened Options

  type Hash = nat

  /** A block index entry; `prev` is `pprev`. */
  datatype Block = Block(height: nat, prev: Option<Hash>)

  type Tree = map<Hash, Block>

  /** Every parent is indexed, one height below. */
  ghost predicate WellFormed(tree: Tree) {
    forall h :: h in tree && tree[h].prev.Some? ==>
      tree[h].prev.value in tree && tree[h].height == tree[tree[h].prev.value].height + 1
  }

  /** `a` is `b` or an ancestor of `b`. */
  ghost predicate IsAncestor(tree: Tree, a: Hash, b: Hash)
    requires WellFormed(tree) && b in tree
    decreases tree[b].height
  {
    a == b || (tree[b].prev.Some? && IsAncestor(tree, a, tree[b].prev.value))
  }

  /** The first block not above `height`, walking towards the root. */
  function WalkDown(tree: Tree, b: Hash, height: nat): Option<Hash>
    requires WellFormed(tree) && b in tree
    decreases tree[b].height
  {
    if tree[b].height <= height then Some(b)
    else if tree[b].prev.None? then None
    else WalkDown(tree, tree[b].prev.value, height)
  }

  /** The loop over `pprev`. */
  method Walk(tree: Tree, start: Hash, height: nat) returns (r: Option<Hash>)
    requires WellFormed(tree) && start in tree
    ensures r == WalkDown(tree, start, height)
  {
    var b := start;
    while tree[b].height > height
      invariant b in tree && WalkDown(tree, b, height) == WalkDown(tree, start, height)
      decreases tree[b].height
    {
      if tree[b].prev.None? {
        return None;
      }
      b := tree[b].prev.value;
    }
    return Some(b);
  }

  /** Walking down to the height of `a` meets `a` exactly if it is an ancestor. */
  lemma {:induction false} WalkMeetsAncestor(tree: Tree, a: Hash, b: Hash)
    requires WellFormed(tree) && a in tree && b in tree && tree[a].height <= tree[b].height
    ensures IsAncestor(tree, a, b) <==> WalkDown(tree, b, tree[a].height) == Some(a)
    decreases tree[b].height
  {
    if tree[b].height == tree[a].height {
      if IsAncestor(tree, a, b) {
        AncestorsAreLower(tree, a, b);
      }
    } else if tree[b].prev.Some? {
      WalkMeetsAncestor(tree, a, tree[b].prev.value);
    }
  }

  lemma {:induction false} AncestorsAreLower(tree: Tree, a: Hash, b: Hash)
    requires WellFormed(tree) && b in tree && IsAncestor(tree, a, b)
    ensures a in tree && (a == b || tree[a].height < tree[b].height)
    decreases tree[b].height
  {
    if a != b {
      AncestorsAreLower(tree, a, tree[b].prev.value);
    }
  }

  lemma {:induction false} AncestorTransitive(tree: Tree, a: Hash, b: Hash, c: Hash)
    requires WellFormed(tree) && b in tree && c in tree && IsAncestor(tree, a, b) && IsAncestor(tree, b, c)
    ensures IsAncestor(tree, a, c)
    decreases tree[c].height
  {
    if b != c {
      AncestorTransitive(tree, a, b, tree[c].prev.value);
    }
  }

  /** The tree after more blocks have been added. */
  ghost predicate Grows(tree: Tree, more: Tree) {
    WellFormed(more) && forall h :: h in tree ==> h in more && more[h] == tree[h]
  }

  lemma {:induction false} GrowthKeepsAncestors(tree: Tree, more: Tree, a: Hash, b: Hash)
    requires WellFormed(tree) && Grows(tree, more) && b in tree
    ensures IsAncestor(more, a, b) <==> IsAncestor(tree, a, b)
    decreases tree[b].height
  {
    if a != b && tree[b].prev.Some? {
      GrowthKeepsAncestors(tree, more, a, tree[b].prev.value);
    }
  }
}
