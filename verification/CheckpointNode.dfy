/** The globals of `checkpoints.cpp` as one object, and the functions that change them. */
module CheckpointNode {
  import opened BlockTree
  import opened Options
  import opened Checkpoints

  class Node {
    var mapBlockIndex: Tree
    var hashSyncCheckpoint: Hash
    var hashPendingCheckpoint: Hash
    var hashInvalidCheckpoint: Hash
    var checkpointMessage: Option<Hash>
    var checkpointMessagePending: Option<Hash>

    ghost function View(): State
      reads this
    {
      State(mapBlockIndex, hashSyncCheckpoint, hashPendingCheckpoint, hashInvalidCheckpoint,
            checkpointMessage, checkpointMessagePending)
    }

    constructor (tree: Tree, genesis: Hash)
      requires WellFormed(tree) && genesis in tree
      ensures Ok(View()) && hashSyncCheckpoint == genesis && mapBlockIndex == tree
    {
      mapBlockIndex, hashSyncCheckpoint := tree, genesis;
      hashPendingCheckpoint, hashInvalidCheckpoint := NULL_HASH, NULL_HASH;
      checkpointMessage, checkpointMessagePending := None, None;
    }

    /** ValidateSyncCheckpoint: true exactly for a higher descendant; a conflict is recorded. */
    method Validate(h: Hash) returns (ok: bool)
      requires WellFormed(mapBlockIndex)
      modifies this`hashInvalidCheckpoint
      ensures ok <==> Advances(old(View()), h)
      ensures hashInvalidCheckpoint == if Conflicts(old(View()), h) then h else old(hashInvalidCheckpoint)
    {
      if hashSyncCheckpoint !in mapBlockIndex || h !in mapBlockIndex {
        return false;
      }
      var tree, sync := mapBlockIndex, hashSyncCheckpoint;
      if tree[h].height <= tree[sync].height {
        ok := false;
        WalkMeetsAncestor(tree, h, sync);
        var met := Walk(tree, sync, tree[h].height);
        if met.Some? && met.value != h {
          NotBelow(tree, sync, h);
          hashInvalidCheckpoint := h;
        }
        return;
      }
      WalkMeetsAncestor(tree, sync, h);
      var met := Walk(tree, h, tree[sync].height);
      ok := met == Some(sync);
      if met.Some? && met.value != sync {
        NotBelow(tree, h, sync);
        hashInvalidCheckpoint := h;
      }
    }

    /** WriteSyncCheckpoint: the hash changes only when the database has committed it. */
    method Write(h: Hash, o: Outcome) returns (ok: bool)
      modifies this`hashSyncCheckpoint
      ensures ok <==> o.written && o.committed
      ensures hashSyncCheckpoint == if ok then h else old(hashSyncCheckpoint)
    {
      if !o.written || !o.committed {
        return false;
      }
      hashSyncCheckpoint := h;
      return true;
    }

    /** Connecting the checkpointed block, where it is not on the main chain yet. */
    method Connect(h: Hash, o: Outcome) returns (ok: bool)
      modifies this`hashInvalidCheckpoint
      ensures ok <==> o.inMainChain || (o.read && o.bestChain)
      ensures hashInvalidCheckpoint == if !o.inMainChain && o.read && !o.bestChain then h else old(hashInvalidCheckpoint)
    {
      if !o.inMainChain {
        if !o.read {
          return false;
        }
        if !o.bestChain {
          hashInvalidCheckpoint := h;
          return false;
        }
      }
      return true;
    }

    /** ProcessSyncCheckpoint. */
    method ProcessMessage(h: Hash, signed: bool, o: Outcome) returns (adopted: bool)
      requires WellFormed(mapBlockIndex)
      modifies this
      ensures Next(old(View()), View(), Process(h, signed, o))
      ensures adopted <==> signed && Advances(old(View()), h) && Succeeds(o)
    {
      if !signed {
        return false;
      }
      if h !in mapBlockIndex {
        hashPendingCheckpoint, checkpointMessagePending := h, Some(h);
        return false;
      }
      adopted := Validate(h);
      if adopted {
        adopted := Connect(h, o);
      }
      if adopted {
        adopted := Write(h, o);
      }
      if adopted {
        checkpointMessage, hashPendingCheckpoint, checkpointMessagePending := Some(h), NULL_HASH, None;
      }
    }

    /** AcceptPendingSyncCheckpoint. */
    method Accept(o: Outcome) returns (adopted: bool)
      requires WellFormed(mapBlockIndex)
      modifies this
      ensures Next(old(View()), View(), AcceptPending(o))
      ensures adopted <==> old(hashPendingCheckpoint) != NULL_HASH && Advances(old(View()), old(hashPendingCheckpoint)) && Succeeds(o)
    {
      if hashPendingCheckpoint == NULL_HASH || hashPendingCheckpoint !in mapBlockIndex {
        return false;
      }
      adopted := Validate(hashPendingCheckpoint);
      if !adopted {
        hashPendingCheckpoint, checkpointMessagePending := NULL_HASH, None;
        return;
      }
      adopted := Connect(hashPendingCheckpoint, o);
      if adopted {
        adopted := Write(hashPendingCheckpoint, o);
      }
      if adopted {
        hashPendingCheckpoint, checkpointMessage, checkpointMessagePending := NULL_HASH, checkpointMessagePending, None;
      }
    }

    /** CheckSync. */
    method CheckSync(testNet: bool, hash: Hash, prev: Hash) returns (ok: bool)
      requires WellFormed(mapBlockIndex) && hashSyncCheckpoint in mapBlockIndex && prev in mapBlockIndex
      ensures ok <==> testNet || PassesSync(View(), hash, prev)
    {
      if testNet {
        return true;
      }
      var tree, sync := mapBlockIndex, hashSyncCheckpoint;
      var height := tree[prev].height + 1;
      if height > tree[sync].height {
        WalkMeetsAncestor(tree, sync, prev);
        var met := Walk(tree, prev, tree[sync].height);
        if met.None? || met.value != sync {
          return false;
        }
      }
      if height == tree[sync].height && hash != sync {
        return false;
      }
      if height < tree[sync].height && hash !in tree {
        return false;
      }
      return true;
    }
  }

  /** Blocks at different places cannot be ancestors of each other both ways. */
  lemma NotBelow(tree: Tree, a: Hash, b: Hash)
    requires WellFormed(tree) && a in tree && b in tree && tree[b].height <= tree[a].height && !IsAncestor(tree, b, a)
    ensures !IsAncestor(tree, a, b)
  {
    if IsAncestor(tree, a, b) {
      AncestorsAreLower(tree, a, b);
    }
  }
}
