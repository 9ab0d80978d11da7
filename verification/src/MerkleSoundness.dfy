/**
 What an accepted proof establishes. Nothing is assumed of the hash beyond its width: each result
 is "the conclusion holds, or this function of the given proofs returns a hash collision".
 */
module MerkleSoundness {
  import opened Prelude
  import opened MerkleHashing
  import opened MerkleTree
  import opened MerkleProofs

  // ---- Inclusion ----

  /** Walks two audit paths for one position from the root down to the first level whose inputs collide. */
  function InclusionCollision(h: MerkleHasher, m: nat, n: nat,
                              leaf: Digest, path: seq<Digest>, leaf': Digest, path': seq<Digest>): Collision
    decreases n
  {
    if n < 2 || path == [] || path' == [] then Collision([], [])
    else
      var k := SplitPoint(n);
      var (m1, n1) := if m < k then (m, k) else (m - k, n - k);
      var below := RebuildInclusion(h, m1, n1, leaf, Rest(path));
      var below' := RebuildInclusion(h, m1, n1, leaf', Rest(path'));
      if below.None? || below'.None? then Collision([], [])
      else
        var top := if m < k then NodeCollision(below.value, Last(path), below'.value, Last(path'))
                   else NodeCollision(Last(path), below.value, Last(path'), below'.value);
        if Collides(h, top) then top
        else InclusionCollision(h, m1, n1, leaf, Rest(path), leaf', Rest(path'))
  }

  lemma RebuildHasWidth(h: MerkleHasher, m: nat, n: nat, leaf: Digest, path: seq<Digest>)
    requires HasWidth(h, leaf)
    ensures var r := RebuildInclusion(h, m, n, leaf, path); r.Some? ==> HasWidth(h, r.value)
  {
  }

  /** Two audit paths that agree at the root of a subtree agree one level down, or collide there. */
  lemma {:induction false} InclusionLevelBinds(h: MerkleHasher, m: nat, n: nat, below: Digest, last: Digest,
                                               below': Digest, last': Digest)
    requires n >= 2 && HasWidth(h, below) && HasWidth(h, below') && HasWidth(h, last) && HasWidth(h, last')
    requires if m < SplitPoint(n) then Node(h, below, last).bytes == Node(h, below', last').bytes
             else Node(h, last, below).bytes == Node(h, last', below').bytes
    ensures (below.bytes == below'.bytes && last.bytes == last'.bytes)
         || Collides(h, if m < SplitPoint(n) then NodeCollision(below, last, below', last')
                        else NodeCollision(last, below, last', below'))
  {
    if m < SplitPoint(n) {
      NodeBinds(h, below, last, below', last');
    } else {
      NodeBinds(h, last, below, last', below');
    }
  }

  lemma SameBytesSnoc(path: seq<Digest>, path': seq<Digest>)
    requires path != [] && path' != []
    requires SameBytes(Rest(path), Rest(path')) && Last(path).bytes == Last(path').bytes
    ensures SameBytes(path, path')
  {
  }

  lemma {:induction false} InclusionCollisionStep(h: MerkleHasher, m: nat, n: nat, leaf: Digest, path: seq<Digest>,
                                                  leaf': Digest, path': seq<Digest>, below: Digest, below': Digest)
    requires n >= 2 && path != [] && path' != []
    requires var k := SplitPoint(n);
             var (m1, n1) := if m < k then (m, k) else (m - k, n - k);
             && RebuildInclusion(h, m1, n1, leaf, Rest(path)) == Some(below)
             && RebuildInclusion(h, m1, n1, leaf', Rest(path')) == Some(below')
    ensures var k := SplitPoint(n);
            var (m1, n1) := if m < k then (m, k) else (m - k, n - k);
            var top := if m < k then NodeCollision(below, Last(path), below', Last(path'))
                       else NodeCollision(Last(path), below, Last(path'), below');
            InclusionCollision(h, m, n, leaf, path, leaf', path')
            == if Collides(h, top) then top else InclusionCollision(h, m1, n1, leaf, Rest(path), leaf', Rest(path'))
  {
  }

  lemma {:induction false} OneLevelDown(h: MerkleHasher, m: nat, n: nat, leaf: Digest, path: seq<Digest>, root: Digest)
    returns (below: Digest)
    requires n >= 2 && HasWidth(h, leaf) && RebuildInclusion(h, m, n, leaf, path) == Some(root)
    ensures path != [] && HasWidth(h, below)
    ensures var k := SplitPoint(n);
            && RebuildInclusion(h, if m < k then m else m - k, if m < k then k else n - k, leaf, Rest(path)) ==
              Some(below)
            && root == if m < k then Node(h, below, Last(path)) else Node(h, Last(path), below)
  {
    var k := SplitPoint(n);
    below := RebuildInclusion(h, if m < k then m else m - k, if m < k then k else n - k, leaf, Rest(path)).value;
    RebuildHasWidth(h, if m < k then m else m - k, if m < k then k else n - k, leaf, Rest(path));
  }

  /** One root admits one leaf and one audit path per position. */
  lemma {:induction false} InclusionUnique(h: MerkleHasher, m: nat, n: nat, leaf: Digest, path: seq<Digest>,
                                           leaf': Digest, path': seq<Digest>, root: Digest, root': Digest)
    requires HasWidth(h, leaf) && HasWidth(h, leaf') && AllHaveWidth(h, path) && AllHaveWidth(h, path')
    requires RebuildInclusion(h, m, n, leaf, path) == Some(root)
    requires RebuildInclusion(h, m, n, leaf', path') == Some(root')
    requires root.bytes == root'.bytes
    ensures (leaf.bytes == leaf'.bytes && SameBytes(path, path'))
         || Collides(h, InclusionCollision(h, m, n, leaf, path, leaf', path'))
    decreases n
  {
    if n < 2 {
    } else {
      var k := SplitPoint(n);
      var (m1, n1) := if m < k then (m, k) else (m - k, n - k);
      var below := OneLevelDown(h, m, n, leaf, path, root);
      var below' := OneLevelDown(h, m, n, leaf', path', root');
      InclusionLevelBinds(h, m, n, below, Last(path), below', Last(path'));
      InclusionCollisionStep(h, m, n, leaf, path, leaf', path', below, below');
      if below.bytes == below'.bytes && Last(path).bytes == Last(path').bytes {
        InclusionUnique(h, m1, n1, leaf, Rest(path), leaf', Rest(path'), below, below');
        if SameBytes(Rest(path), Rest(path')) { SameBytesSnoc(path, path'); }
      }
    }
  }

  /** The collision behind an accepted inclusion proof for something the log does not hold there. */
  function ForgedInclusion(h: MerkleHasher, proof: InclusionProof, leaf: Digest, leaves: seq<Digest>): Collision
    requires proof.leafIndex < |leaves|
  {
    InclusionCollision(h, proof.leafIndex, proof.treeSize, leaf, proof.path,
                       leaves[proof.leafIndex], AuditPath(h, proof.leafIndex, leaves))
  }

  /** An accepted inclusion proof is the generated one for the leaf the log really holds there. */
  lemma InclusionSound(h: MerkleHasher, proof: InclusionProof, leaf: Digest, leaves: seq<Digest>, root: Digest)
    requires AllHaveWidth(h, leaves) && HasWidth(h, leaf) && AllHaveWidth(h, proof.path)
    requires proof.treeSize == |leaves| && root.bytes == Root(h, leaves).bytes
    requires VerifyInclusion(h, proof, leaf, root)
    ensures proof.leafIndex < |leaves|
    ensures (leaf.bytes == leaves[proof.leafIndex].bytes &&
             SameBytes(proof.path, AuditPath(h, proof.leafIndex, leaves)))
         || Collides(h, ForgedInclusion(h, proof, leaf, leaves))
  {
    var m := proof.leafIndex;
    AuditPathRebuilds(h, m, leaves);
    AuditPathHasWidth(h, m, leaves);
    InclusionUnique(h, m, |leaves|, leaf, proof.path, leaves[m], AuditPath(h, m, leaves), root, Root(h, leaves));
  }

  // ---- Consistency against known leaves ----

  /** Walks a consistency path down the tree of known leaves to the first level whose inputs collide. */
  function ConsistencyCollision(h: MerkleHasher, m: nat, whole: bool, seed: Digest, path: seq<Digest>,
                                leaves: seq<Digest>): Collision
    requires 0 < m <= |leaves|
    decreases |leaves|
  {
    if m == |leaves| || path == [] then Collision([], [])
    else
      var k := SplitPoint(|leaves|);
      var left, right := Root(h, leaves[..k]), Root(h, leaves[k..]);
      if m <= k then
        var below := RebuildConsistency(h, m, k, whole, seed, Rest(path));
        if below.None? then Collision([], [])
        else
          var top := NodeCollision(below.value.1, Last(path), left, right);
          if Collides(h, top) then top else ConsistencyCollision(h, m, whole, seed, Rest(path), leaves[..k])
      else
        var below := RebuildConsistency(h, m - k, |leaves| - k, false, seed, Rest(path));
        if below.None? then Collision([], [])
        else
          var top := NodeCollision(Last(path), below.value.1, left, right);
          if Collides(h, top) then top else ConsistencyCollision(h, m - k, false, seed, Rest(path), leaves[k..])
  }

  lemma RebuildConsistencyHasWidth(h: MerkleHasher, m: nat, n: nat, whole: bool, seed: Digest, path: seq<Digest>)
    requires 0 < m <= n && HasWidth(h, seed) && AllHaveWidth(h, path)
    ensures var r := RebuildConsistency(h, m, n, whole, seed, path);
            r.Some? ==> HasWidth(h, r.value.0) && HasWidth(h, r.value.1)
  {
  }

  /** The old root of a consistency path is that of the prefix, or the path hides a collision. */
  predicate PrefixRoot(h: MerkleHasher, m: nat, whole: bool, seed: Digest, path: seq<Digest>, leaves: seq<Digest>,
                       oldRoot: Digest)
    requires 0 < m <= |leaves|
  {
    || oldRoot.bytes == Root(h, leaves[..m]).bytes
    || Collides(h, ConsistencyCollision(h, m, whole, seed, path, leaves))
  }

  lemma {:induction false} PrefixRootNewLevel(h: MerkleHasher, m: nat, whole: bool, seed: Digest, path: seq<Digest>,
                                              leaves: seq<Digest>, below: (Digest, Digest))
    requires |leaves| >= 2 && 0 < m <= SplitPoint(|leaves|) && path != []
    requires AllHaveWidth(h, leaves) && HasWidth(h, seed) && AllHaveWidth(h, path)
    requires RebuildConsistency(h, m, SplitPoint(|leaves|), whole, seed, Rest(path)) == Some(below)
    requires Node(h, below.1, Last(path)).bytes == Root(h, leaves).bytes
    ensures PrefixRoot(h, m, whole, seed, path, leaves, below.0)
    decreases |leaves|, 0
  {
    var k := SplitPoint(|leaves|);
    var left := leaves[..k];
    RootHasWidth(h, left);
    RebuildConsistencyHasWidth(h, m, k, whole, seed, Rest(path));
    NodeBinds(h, below.1, Last(path), Root(h, left), Root(h, leaves[k..]));
    if below.1.bytes == Root(h, left).bytes {
      ConsistencyPathSound(h, m, whole, seed, Rest(path), left, below);
      assert left[..m] == leaves[..m];
    }
  }

  lemma {:induction false} PrefixRootSharedLevel(h: MerkleHasher, m: nat, whole: bool, seed: Digest, path: seq<Digest>,
                                                 leaves: seq<Digest>, below: (Digest, Digest))
    requires |leaves| >= 2 && SplitPoint(|leaves|) < m < |leaves| && path != []
    requires AllHaveWidth(h, leaves) && HasWidth(h, seed) && AllHaveWidth(h, path)
    requires RebuildConsistency(h, m - SplitPoint(|leaves|), |leaves| - SplitPoint(|leaves|), false, seed, Rest(path))
          == Some(below)
    requires Node(h, Last(path), below.1).bytes == Root(h, leaves).bytes
    ensures PrefixRoot(h, m, whole, seed, path, leaves, Node(h, Last(path), below.0))
    decreases |leaves|, 0
  {
    var k := SplitPoint(|leaves|);
    var right := leaves[k..];
    RootHasWidth(h, leaves[..k]);
    NodeBinds(h, Last(path), below.1, Root(h, leaves[..k]), Root(h, right));
    if below.1.bytes == Root(h, right).bytes {
      ConsistencyPathSound(h, m - k, false, seed, Rest(path), right, below);
      RootOfPrefix(h, leaves, m);
    }
  }

  lemma {:induction false} ConsistencyPathSound(h: MerkleHasher, m: nat, whole: bool, seed: Digest, path: seq<Digest>,
                                                leaves: seq<Digest>, roots: (Digest, Digest))
    requires 0 < m <= |leaves| && AllHaveWidth(h, leaves) && HasWidth(h, seed) && AllHaveWidth(h, path)
    requires RebuildConsistency(h, m, |leaves|, whole, seed, path) == Some(roots)
    requires roots.1.bytes == Root(h, leaves).bytes
    ensures PrefixRoot(h, m, whole, seed, path, leaves, roots.0)
    decreases |leaves|
  {
    if m == |leaves| {
      assert leaves[..m] == leaves;
    } else {
      var k := SplitPoint(|leaves|);
      if m <= k {
        var below := RebuildConsistency(h, m, k, whole, seed, Rest(path)).value;
        PrefixRootNewLevel(h, m, whole, seed, path, leaves, below);
      } else {
        var below := RebuildConsistency(h, m - k, |leaves| - k, false, seed, Rest(path)).value;
        PrefixRootSharedLevel(h, m, whole, seed, path, leaves, below);
      }
    }
  }

  /** If the new root is the tree hash of known leaves, an accepted old root is that of their prefix. */
  lemma ConsistencySound(h: MerkleHasher, proof: ConsistencyProof, oldRoot: Digest, newRoot: Digest,
                         leaves: seq<Digest>)
    requires 0 < proof.firstSize
    requires AllHaveWidth(h, leaves) && HasWidth(h, oldRoot) && AllHaveWidth(h, proof.path)
    requires proof.secondSize == |leaves| && newRoot.bytes == Root(h, leaves).bytes
    requires VerifyConsistency(h, proof, oldRoot, newRoot)
    ensures proof.firstSize <= |leaves|
    ensures oldRoot.bytes == Root(h, leaves[..proof.firstSize]).bytes
         || Collides(h, ConsistencyCollision(h, proof.firstSize, true, oldRoot, proof.path, leaves))
  {
    if proof.firstSize == |leaves| {
      assert leaves[..proof.firstSize] == leaves;
    } else {
      ConsistencyPathSound(h, proof.firstSize, true, oldRoot, proof.path, leaves, (oldRoot, newRoot));
    }
  }

  // ---- Append-only, as seen by a verifier that holds no leaves ----

  /** An audit path in the old tree of m leaves, carried over a consistency path into the new tree of n. */
  function Transport(h: MerkleHasher, i: nat, m: nat, n: nat, whole: bool, seed: Digest, path: seq<Digest>,
                     oldPath: seq<Digest>): seq<Digest>
    requires i < m <= n
    decreases n
  {
    if m == n || path == [] then oldPath
    else
      var k := SplitPoint(n);
      if m <= k then Transport(h, i, m, k, whole, seed, Rest(path), oldPath) + [Last(path)]
      else if oldPath == [] then []
      else if i < k then
        var right := RebuildConsistency(h, m - k, n - k, false, seed, Rest(path));
        if right.None? then [] else Rest(oldPath) + [right.value.1]
      else Transport(h, i - k, m - k, n - k, false, seed, Rest(path), Rest(oldPath)) + [Last(path)]
  }

  /** What the subtree root above leaf i is, on the way down from a level both trees share. */
  function SharedCollision(h: MerkleHasher, i: nat, m: nat, k: nat, below: Digest, last: Digest, leaf: Digest,
                           oldPath: seq<Digest>): Collision
    requires i < m && k < m && oldPath != []
  {
    var r := if i < k then RebuildInclusion(h, i, k, leaf, Rest(oldPath))
             else RebuildInclusion(h, i - k, m - k, leaf, Rest(oldPath));
    if r.None? then Collision([], [])
    else if i < k then NodeCollision(last, below, r.value, Last(oldPath))
    else NodeCollision(last, below, Last(oldPath), r.value)
  }

  /** The first level, from the root down, at which an old audit path contradicts the consistency path. */
  function TransportCollision(h: MerkleHasher, i: nat, m: nat, n: nat, whole: bool, seed: Digest, path: seq<Digest>,
                              leaf: Digest, oldPath: seq<Digest>): Collision
    requires i < m <= n
    decreases n
  {
    if m == n || path == [] then Collision([], [])
    else
      var k := SplitPoint(n);
      if m <= k then TransportCollision(h, i, m, k, whole, seed, Rest(path), leaf, oldPath)
      else
        var right := RebuildConsistency(h, m - k, n - k, false, seed, Rest(path));
        if right.None? || oldPath == [] then Collision([], [])
        else
          var top := SharedCollision(h, i, m, k, right.value.0, Last(path), leaf, oldPath);
          if Collides(h, top) || i < k then top
          else TransportCollision(h, i - k, m - k, n - k, false, seed, Rest(path), leaf, Rest(oldPath))
  }

  /** An audit path leads from a leaf to a root with these bytes. */
  predicate LeadsTo(h: MerkleHasher, i: nat, n: nat, leaf: Digest, path: seq<Digest>, root: Digest) {
    var r := RebuildInclusion(h, i, n, leaf, path);
    r.Some? && r.value.bytes == root.bytes
  }

  lemma {:induction false} LeadsToLeft(h: MerkleHasher, i: nat, n: nat, leaf: Digest, path: seq<Digest>,
                                       left: Digest, right: Digest)
    requires n >= 2 && i < SplitPoint(n) && LeadsTo(h, i, SplitPoint(n), leaf, path, left)
    ensures LeadsTo(h, i, n, leaf, path + [right], Node(h, left, right))
  {
    assert Rest(path + [right]) == path;
  }

  lemma {:induction false} LeadsToRight(h: MerkleHasher, i: nat, n: nat, leaf: Digest, path: seq<Digest>,
                                        left: Digest, right: Digest)
    requires n >= 2 && SplitPoint(n) <= i && LeadsTo(h, i - SplitPoint(n), n - SplitPoint(n), leaf, path, right)
    ensures LeadsTo(h, i, n, leaf, path + [left], Node(h, left, right))
  {
    assert Rest(path + [left]) == path;
  }

  /** In the old tree: one level down on the side of leaf i, or a collision at this level. */
  lemma {:induction false} OldLevelBinds(h: MerkleHasher, i: nat, m: nat, below: Digest, last: Digest, leaf: Digest,
                                         oldPath: seq<Digest>)
    requires m >= 2 && i < m && HasWidth(h, leaf) && HasWidth(h, last) && AllHaveWidth(h, oldPath)
    requires LeadsTo(h, i, m, leaf, oldPath, Node(h, last, below))
    ensures oldPath != []
    ensures var k := SplitPoint(m);
            || Collides(h, SharedCollision(h, i, m, k, below, last, leaf, oldPath))
            || (i < k && LeadsTo(h, i, k, leaf, Rest(oldPath), last))
            || (k <= i && Last(oldPath).bytes == last.bytes && LeadsTo(h, i - k, m - k, leaf, Rest(oldPath), below))
  {
    var k := SplitPoint(m);
    if i < k {
      RebuildHasWidth(h, i, k, leaf, Rest(oldPath));
      NodeBinds(h, last, below, RebuildInclusion(h, i, k, leaf, Rest(oldPath)).value, Last(oldPath));
    } else {
      NodeBinds(h, last, below, Last(oldPath), RebuildInclusion(h, i - k, m - k, leaf, Rest(oldPath)).value);
    }
  }

  /** What carrying an audit path over a consistency path promises. */
  predicate Carries(h: MerkleHasher, i: nat, m: nat, n: nat, whole: bool, seed: Digest, path: seq<Digest>,
                    leaf: Digest, oldPath: seq<Digest>, newRoot: Digest)
    requires i < m <= n
  {
    || LeadsTo(h, i, n, leaf, Transport(h, i, m, n, whole, seed, path, oldPath), newRoot)
    || Collides(h, TransportCollision(h, i, m, n, whole, seed, path, leaf, oldPath))
  }

  lemma {:induction false} CarriesLeft(h: MerkleHasher, i: nat, m: nat, n: nat, whole: bool, seed: Digest,
                                       path: seq<Digest>, leaf: Digest, oldPath: seq<Digest>, below: Digest)
    requires n >= 2 && i < m <= SplitPoint(n) && path != []
    requires Carries(h, i, m, SplitPoint(n), whole, seed, Rest(path), leaf, oldPath, below)
    ensures Carries(h, i, m, n, whole, seed, path, leaf, oldPath, Node(h, below, Last(path)))
  {
    var k := SplitPoint(n);
    var sub := Transport(h, i, m, k, whole, seed, Rest(path), oldPath);
    if LeadsTo(h, i, k, leaf, sub, below) { LeadsToLeft(h, i, n, leaf, sub, below, Last(path)); }
  }

  lemma {:induction false} CarriesOnLeftOfShared(h: MerkleHasher, i: nat, m: nat, n: nat, whole: bool, seed: Digest,
                                                 path: seq<Digest>, leaf: Digest, oldPath: seq<Digest>,
                                                 right: (Digest, Digest))
    requires n >= 2 && i < SplitPoint(n) < m < n && path != [] && oldPath != []
    requires RebuildConsistency(h, m - SplitPoint(n), n - SplitPoint(n), false, seed, Rest(path)) == Some(right)
    requires LeadsTo(h, i, SplitPoint(n), leaf, Rest(oldPath), Last(path))
    ensures Carries(h, i, m, n, whole, seed, path, leaf, oldPath, Node(h, Last(path), right.1))
  {
    LeadsToLeft(h, i, n, leaf, Rest(oldPath), Last(path), right.1);
  }

  lemma {:induction false} CarriesOnRightOfShared(h: MerkleHasher, i: nat, m: nat, n: nat, whole: bool, seed: Digest,
                                                  path: seq<Digest>, leaf: Digest, oldPath: seq<Digest>,
                                                  right: (Digest, Digest))
    requires n >= 2 && SplitPoint(n) <= i < m < n && path != [] && oldPath != []
    requires RebuildConsistency(h, m - SplitPoint(n), n - SplitPoint(n), false, seed, Rest(path)) == Some(right)
    requires Carries(h, i - SplitPoint(n), m - SplitPoint(n), n - SplitPoint(n), false, seed, Rest(path), leaf,
                     Rest(oldPath), right.1)
    ensures Carries(h, i, m, n, whole, seed, path, leaf, oldPath, Node(h, Last(path), right.1))
  {
    var k := SplitPoint(n);
    var sub := Transport(h, i - k, m - k, n - k, false, seed, Rest(path), Rest(oldPath));
    if LeadsTo(h, i - k, n - k, leaf, sub, right.1) { LeadsToRight(h, i, n, leaf, sub, Last(path), right.1); }
  }

  lemma {:induction false} CarriesThroughShared(h: MerkleHasher, i: nat, m: nat, n: nat, whole: bool, seed: Digest,
                                                path: seq<Digest>, leaf: Digest, oldPath: seq<Digest>,
                                                right: (Digest, Digest))
    requires n >= 2 && i < m < n && SplitPoint(n) < m
    requires path != [] && HasWidth(h, seed) && AllHaveWidth(h, path) && HasWidth(h, leaf) && AllHaveWidth(h, oldPath)
    requires RebuildConsistency(h, m - SplitPoint(n), n - SplitPoint(n), false, seed, Rest(path)) == Some(right)
    requires LeadsTo(h, i, m, leaf, oldPath, Node(h, Last(path), right.0))
    ensures Carries(h, i, m, n, whole, seed, path, leaf, oldPath, Node(h, Last(path), right.1))
    decreases n, 0
  {
    var k := SplitPoint(n);
    SplitPointStable(m, n);
    OldLevelBinds(h, i, m, right.0, Last(path), leaf, oldPath);
    if !Collides(h, SharedCollision(h, i, m, k, right.0, Last(path), leaf, oldPath)) {
      if i < k {
        CarriesOnLeftOfShared(h, i, m, n, whole, seed, path, leaf, oldPath, right);
      } else {
        ConsistencyCarriesInclusion(h, i - k, m - k, n - k, false, seed, Rest(path), leaf, Rest(oldPath), right);
        CarriesOnRightOfShared(h, i, m, n, whole, seed, path, leaf, oldPath, right);
      }
    }
  }

  /** A consistency path turns every audit path of the old root into one of the new root, for the same leaf. */
  lemma {:induction false} ConsistencyCarriesInclusion(h: MerkleHasher, i: nat, m: nat, n: nat, whole: bool,
                                                       seed: Digest,
                                                       path: seq<Digest>, leaf: Digest, oldPath: seq<Digest>,
                                                       roots: (Digest, Digest))
    requires i < m <= n
    requires HasWidth(h, seed) && AllHaveWidth(h, path) && HasWidth(h, leaf) && AllHaveWidth(h, oldPath)
    requires RebuildConsistency(h, m, n, whole, seed, path) == Some(roots)
    requires LeadsTo(h, i, m, leaf, oldPath, roots.0)
    ensures Carries(h, i, m, n, whole, seed, path, leaf, oldPath, roots.1)
    decreases n
  {
    if m == n {
    } else {
      var k := SplitPoint(n);
      if m <= k {
        var below := RebuildConsistency(h, m, k, whole, seed, Rest(path)).value;
        ConsistencyCarriesInclusion(h, i, m, k, whole, seed, Rest(path), leaf, oldPath, below);
        CarriesLeft(h, i, m, n, whole, seed, path, leaf, oldPath, below.1);
      } else {
        var right := RebuildConsistency(h, m - k, n - k, false, seed, Rest(path)).value;
        CarriesThroughShared(h, i, m, n, whole, seed, path, leaf, oldPath, right);
      }
    }
  }

  lemma {:induction false} TransportHasWidth(h: MerkleHasher, i: nat, m: nat, n: nat, whole: bool, seed: Digest,
                                             path: seq<Digest>, oldPath: seq<Digest>)
    requires i < m <= n && HasWidth(h, seed) && AllHaveWidth(h, path) && AllHaveWidth(h, oldPath)
    ensures AllHaveWidth(h, Transport(h, i, m, n, whole, seed, path, oldPath))
    decreases n
  {
    if m == n || path == [] {
    } else {
      var k := SplitPoint(n);
      if m <= k {
        TransportHasWidth(h, i, m, k, whole, seed, Rest(path), oldPath);
      } else if oldPath != [] {
        if i < k {
          RebuildConsistencyHasWidth(h, m - k, n - k, false, seed, Rest(path));
        } else {
          TransportHasWidth(h, i - k, m - k, n - k, false, seed, Rest(path), Rest(oldPath));
        }
      }
    }
  }

  /** The collision behind two checkpoints, a proof between them, and two leaves for one position. */
  function ForgedHistory(h: MerkleHasher, proof: ConsistencyProof, oldRoot: Digest,
                         before: InclusionProof, oldLeaf: Digest, after: InclusionProof, newLeaf: Digest): Collision
    requires before.leafIndex < proof.firstSize <= proof.secondSize
  {
    var i, m, n := before.leafIndex, proof.firstSize, proof.secondSize;
    var carried := TransportCollision(h, i, m, n, true, oldRoot, proof.path, oldLeaf, before.path);
    if Collides(h, carried) then carried
    else InclusionCollision(h, i, n, oldLeaf, Transport(h, i, m, n, true, oldRoot, proof.path, before.path), newLeaf,
                            after.path)
  }

  /**
   The log is append-only for whoever checks its proofs: once a consistency proof between two roots is
   accepted, no position of the old tree can be shown to hold two different leaves.
   */
  lemma AppendOnly(h: MerkleHasher, proof: ConsistencyProof, oldRoot: Digest, newRoot: Digest,
                   before: InclusionProof, oldLeaf: Digest, after: InclusionProof, newLeaf: Digest)
    requires HasWidth(h, oldRoot) && AllHaveWidth(h, proof.path)
    requires HasWidth(h, oldLeaf) && AllHaveWidth(h, before.path) && HasWidth(h, newLeaf) && AllHaveWidth(h, after.path)
    requires before.treeSize == proof.firstSize && after.treeSize == proof.secondSize
    requires before.leafIndex == after.leafIndex
    requires VerifyConsistency(h, proof, oldRoot, newRoot)
    requires VerifyInclusion(h, before, oldLeaf, oldRoot)
    requires VerifyInclusion(h, after, newLeaf, newRoot)
    ensures oldLeaf.bytes == newLeaf.bytes
         || Collides(h, ForgedHistory(h, proof, oldRoot, before, oldLeaf, after, newLeaf))
  {
    var i, m, n := before.leafIndex, proof.firstSize, proof.secondSize;
    ConsistencyCarriesInclusion(h, i, m, n, true, oldRoot, proof.path, oldLeaf, before.path, (oldRoot, newRoot));
    TransportHasWidth(h, i, m, n, true, oldRoot, proof.path, before.path);
    var carried := Transport(h, i, m, n, true, oldRoot, proof.path, before.path);
    if LeadsTo(h, i, n, oldLeaf, carried, newRoot) {
      InclusionUnique(h, i, n, oldLeaf, carried, newLeaf, after.path,
                      RebuildInclusion(h, i, n, oldLeaf, carried).value, newRoot);
    }
  }
}
