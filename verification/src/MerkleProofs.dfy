/**
 Inclusion and consistency proofs of sections 2.1.1 and 2.1.2 of RFC 6962: generation from the
 leaves, verification from roots alone, and that every generated proof verifies within its bound.
 */
module MerkleProofs {
  import opened Prelude
  import opened MerkleHashing
  import opened MerkleTree

  datatype InclusionProof = InclusionProof(leafIndex: nat, treeSize: nat, path: seq<Digest>)
  datatype ConsistencyProof = ConsistencyProof(firstSize: nat, secondSize: nat, path: seq<Digest>)

  function Last(path: seq<Digest>): Digest
    requires path != []
  {
    path[|path| - 1]
  }

  function Rest(path: seq<Digest>): seq<Digest>
    requires path != []
  {
    path[..|path| - 1]
  }

  // ---- Generation ----

  /** The audit path of leaf m, deepest sibling first. */
  function AuditPath(h: MerkleHasher, m: nat, leaves: seq<Digest>): seq<Digest>
    decreases |leaves|
  {
    if |leaves| <= 1 then []
    else
      var k := SplitPoint(|leaves|);
      if m < k then AuditPath(h, m, leaves[..k]) + [Root(h, leaves[k..])]
      else AuditPath(h, m - k, leaves[k..]) + [Root(h, leaves[..k])]
  }

  function Inclusion(h: MerkleHasher, leaves: seq<Digest>, index: nat): Option<InclusionProof> {
    if index >= |leaves| then None
    else Some(InclusionProof(index, |leaves|, AuditPath(h, index, leaves)))
  }

  /** The consistency path from the first m leaves; `whole` while the old tree fills the subtree. */
  function Subproof(h: MerkleHasher, m: nat, leaves: seq<Digest>, whole: bool): seq<Digest>
    requires 0 < m <= |leaves|
    decreases |leaves|
  {
    if m == |leaves| then
      if whole then [] else [Root(h, leaves)]
    else
      var k := SplitPoint(|leaves|);
      if m <= k then Subproof(h, m, leaves[..k], whole) + [Root(h, leaves[k..])]
      else Subproof(h, m - k, leaves[k..], false) + [Root(h, leaves[..k])]
  }

  function Consistency(h: MerkleHasher, leaves: seq<Digest>, firstSize: nat): Option<ConsistencyProof> {
    if firstSize == 0 || firstSize > |leaves| then None
    else
      var path := if firstSize == |leaves| then [] else Subproof(h, firstSize, leaves, true);
      Some(ConsistencyProof(firstSize, |leaves|, path))
  }

  // ---- Verification ----

  /** The root a leaf and an audit path lead to, if the path has the right length. */
  function RebuildInclusion(h: MerkleHasher, m: nat, n: nat, leaf: Digest, path: seq<Digest>): Option<Digest>
    decreases n
  {
    if n == 0 then None
    else if n == 1 then
      if path == [] then Some(leaf) else None
    else if path == [] then None
    else
      var k := SplitPoint(n);
      if m < k then
        var left := RebuildInclusion(h, m, k, leaf, Rest(path));
        if left.None? then None else Some(Node(h, left.value, Last(path)))
      else
        var right := RebuildInclusion(h, m - k, n - k, leaf, Rest(path));
        if right.None? then None else Some(Node(h, Last(path), right.value))
  }

  predicate VerifyInclusion(h: MerkleHasher, proof: InclusionProof, leaf: Digest, root: Digest) {
    proof.leafIndex < proof.treeSize &&
    RebuildInclusion(h, proof.leafIndex, proof.treeSize, leaf, proof.path) == Some(root)
  }

  /** The (old, new) roots a consistency path leads to; `seed` stands for the old root where it is whole. */
  function RebuildConsistency(h: MerkleHasher, m: nat, n: nat, whole: bool, seed: Digest, path: seq<Digest>)
    : Option<(Digest, Digest)>
    requires 0 < m <= n
    decreases n
  {
    if m == n then
      if whole then
        if path == [] then Some((seed, seed)) else None
      else
        if |path| == 1 then Some((path[0], path[0])) else None
    else if path == [] then None
    else
      var k := SplitPoint(n);
      if m <= k then
        var left := RebuildConsistency(h, m, k, whole, seed, Rest(path));
        if left.None? then None else Some((left.value.0, Node(h, left.value.1, Last(path))))
      else
        var right := RebuildConsistency(h, m - k, n - k, false, seed, Rest(path));
        if right.None? then None
        else Some((Node(h, Last(path), right.value.0), Node(h, Last(path), right.value.1)))
  }

  predicate VerifyConsistency(h: MerkleHasher, proof: ConsistencyProof, oldRoot: Digest, newRoot: Digest) {
    var m, n := proof.firstSize, proof.secondSize;
    if m > n then false
    else if m == n then proof.path == [] && oldRoot == newRoot
    else if m == 0 then proof.path == []
    else RebuildConsistency(h, m, n, true, oldRoot, proof.path) == Some((oldRoot, newRoot))
  }

  // ---- Every generated proof verifies ----

  /** One level of an audit path, with the leaf in the left half. */
  lemma {:induction false} RebuildLeft(h: MerkleHasher, m: nat, n: nat, leaf: Digest, path: seq<Digest>,
                                       below: Digest, sibling: Digest)
    requires n >= 2 && m < SplitPoint(n) && RebuildInclusion(h, m, SplitPoint(n), leaf, path) == Some(below)
    ensures RebuildInclusion(h, m, n, leaf, path + [sibling]) == Some(Node(h, below, sibling))
  {
    assert Rest(path + [sibling]) == path;
  }

  /** One level of an audit path, with the leaf in the right half. */
  lemma {:induction false} RebuildRight(h: MerkleHasher, m: nat, n: nat, leaf: Digest, path: seq<Digest>,
                                        below: Digest, sibling: Digest)
    requires n >= 2 && SplitPoint(n) <= m
    requires RebuildInclusion(h, m - SplitPoint(n), n - SplitPoint(n), leaf, path) == Some(below)
    ensures RebuildInclusion(h, m, n, leaf, path + [sibling]) == Some(Node(h, sibling, below))
  {
    assert Rest(path + [sibling]) == path;
  }

  lemma {:induction false} RootOfHalves(h: MerkleHasher, leaves: seq<Digest>, k: nat)
    requires |leaves| >= 2 && k == SplitPoint(|leaves|)
    ensures Root(h, leaves) == Node(h, Root(h, leaves[..k]), Root(h, leaves[k..]))
  {
  }

  lemma {:induction false} AuditPathLevel(h: MerkleHasher, m: nat, leaves: seq<Digest>, k: nat)
    requires |leaves| >= 2 && k == SplitPoint(|leaves|)
    ensures m < k ==> AuditPath(h, m, leaves) == AuditPath(h, m, leaves[..k]) + [Root(h, leaves[k..])]
    ensures k <= m ==> AuditPath(h, m, leaves) == AuditPath(h, m - k, leaves[k..]) + [Root(h, leaves[..k])]
  {
  }

  lemma {:induction false} AuditPathRebuilds(h: MerkleHasher, m: nat, leaves: seq<Digest>)
    requires m < |leaves|
    ensures RebuildInclusion(h, m, |leaves|, leaves[m], AuditPath(h, m, leaves)) == Some(Root(h, leaves))
    decreases |leaves|, 1
  {
    if |leaves| >= 2 {
      if m < SplitPoint(|leaves|) {
        AuditPathRebuildsLeft(h, m, leaves);
      } else {
        AuditPathRebuildsRight(h, m, leaves);
      }
    }
  }

  lemma {:induction false} AuditPathRebuildsLeft(h: MerkleHasher, m: nat, leaves: seq<Digest>)
    requires |leaves| >= 2 && m < SplitPoint(|leaves|)
    ensures RebuildInclusion(h, m, |leaves|, leaves[m], AuditPath(h, m, leaves)) == Some(Root(h, leaves))
    decreases |leaves|, 0
  {
    var k := SplitPoint(|leaves|);
    AuditPathRebuilds(h, m, leaves[..k]);
    AuditPathLevel(h, m, leaves, k);
    RootOfHalves(h, leaves, k);
    RebuildLeft(h, m, |leaves|, leaves[m], AuditPath(h, m, leaves[..k]), Root(h, leaves[..k]), Root(h, leaves[k..]));
  }

  lemma {:induction false} AuditPathRebuildsRight(h: MerkleHasher, m: nat, leaves: seq<Digest>)
    requires |leaves| >= 2 && SplitPoint(|leaves|) <= m < |leaves|
    ensures RebuildInclusion(h, m, |leaves|, leaves[m], AuditPath(h, m, leaves)) == Some(Root(h, leaves))
    decreases |leaves|, 0
  {
    var k := SplitPoint(|leaves|);
    var right, j := leaves[k..], m - k;
    assert |right| == |leaves| - k && right[j] == leaves[m];
    AuditPathRebuilds(h, j, right);
    RebuildRight(h, m, |leaves|, leaves[m], AuditPath(h, j, right), Root(h, right), Root(h, leaves[..k]));
    AuditPathLevel(h, m, leaves, k);
    RootOfHalves(h, leaves, k);
  }

  lemma {:induction false} AuditPathLength(h: MerkleHasher, m: nat, leaves: seq<Digest>)
    requires m < |leaves|
    ensures |AuditPath(h, m, leaves)| <= CeilLog2(|leaves|)
    decreases |leaves|
  {
    if |leaves| < 2 {
    } else {
      var k := SplitPoint(|leaves|);
      SplitPointLevels(|leaves|);
      AuditPathLevel(h, m, leaves, k);
      if m < k { AuditPathLength(h, m, leaves[..k]); } else { AuditPathLength(h, m - k, leaves[k..]); }
    }
  }

  /** A proof exists for exactly the indices of the log, verifies, and has at most ceil(log2 n) digests. */
  lemma InclusionComplete(h: MerkleHasher, leaves: seq<Digest>, index: nat)
    ensures Inclusion(h, leaves, index).Some? <==> index < |leaves|
    ensures index < |leaves| ==>
              var proof := Inclusion(h, leaves, index).value;
              && VerifyInclusion(h, proof, leaves[index], Root(h, leaves))
              && |proof.path| <= CeilLog2(|leaves|)
  {
    if index < |leaves| {
      AuditPathRebuilds(h, index, leaves);
      AuditPathLength(h, index, leaves);
    }
  }

  /** One level of a consistency path, when the old tree lies in the left half. */
  lemma {:induction false} RebuildNewLevel(h: MerkleHasher, m: nat, n: nat, whole: bool, seed: Digest,
                                           path: seq<Digest>,
                                           below: (Digest, Digest), right: Digest)
    requires n >= 2 && 0 < m <= SplitPoint(n)
    requires RebuildConsistency(h, m, SplitPoint(n), whole, seed, path) == Some(below)
    ensures RebuildConsistency(h, m, n, whole, seed, path + [right]) == Some((below.0, Node(h, below.1, right)))
  {
    assert Rest(path + [right]) == path;
  }

  /** One level of a consistency path, when the old tree reaches into the right half. */
  lemma {:induction false} RebuildSharedLevel(h: MerkleHasher, m: nat, n: nat, whole: bool, seed: Digest,
                                              path: seq<Digest>,
                                              below: (Digest, Digest), left: Digest)
    requires n >= 2 && SplitPoint(n) < m < n
    requires RebuildConsistency(h, m - SplitPoint(n), n - SplitPoint(n), false, seed, path) == Some(below)
    ensures RebuildConsistency(h, m, n, whole, seed, path + [left])
         == Some((Node(h, left, below.0), Node(h, left, below.1)))
  {
    assert Rest(path + [left]) == path;
  }

  lemma {:induction false} SubproofNewLevel(h: MerkleHasher, m: nat, leaves: seq<Digest>, whole: bool, seed: Digest,
                                            left: seq<Digest>)
    requires |leaves| >= 2 && 0 < m <= SplitPoint(|leaves|) && left == leaves[..SplitPoint(|leaves|)]
    requires RebuildConsistency(h, m, |left|, whole, seed, Subproof(h, m, left, whole))
          == Some((Root(h, leaves[..m]), Root(h, left)))
    ensures RebuildConsistency(h, m, |leaves|, whole, seed, Subproof(h, m, leaves, whole))
         == Some((Root(h, leaves[..m]), Root(h, leaves)))
  {
    var right := leaves[SplitPoint(|leaves|)..];
    var sub := Subproof(h, m, left, whole);
    RebuildNewLevel(h, m, |leaves|, whole, seed, sub, (Root(h, leaves[..m]), Root(h, left)), Root(h, right));
    assert Subproof(h, m, leaves, whole) == sub + [Root(h, right)];
  }

  lemma {:induction false} SubproofSharedLevel(h: MerkleHasher, m: nat, leaves: seq<Digest>, whole: bool, seed: Digest,
                                               right: seq<Digest>)
    requires |leaves| >= 2 && SplitPoint(|leaves|) < m < |leaves| && right == leaves[SplitPoint(|leaves|)..]
    requires var j := m - SplitPoint(|leaves|);
             RebuildConsistency(h, j, |right|, false, seed, Subproof(h, j, right, false))
             == Some((Root(h, right[..j]), Root(h, right)))
    ensures RebuildConsistency(h, m, |leaves|, whole, seed, Subproof(h, m, leaves, whole))
         == Some((Root(h, leaves[..m]), Root(h, leaves)))
  {
    var k := SplitPoint(|leaves|);
    RootOfPrefix(h, leaves, m);
    var sub := Subproof(h, m - k, right, false);
    RebuildSharedLevel(h, m, |leaves|, whole, seed, sub, (Root(h, right[..m - k]), Root(h, right)),
                       Root(h, leaves[..k]));
    assert Subproof(h, m, leaves, whole) == sub + [Root(h, leaves[..k])];
  }

  lemma {:induction false} SubproofOfAll(h: MerkleHasher, leaves: seq<Digest>, whole: bool, seed: Digest)
    requires leaves != [] && (whole ==> seed == Root(h, leaves[..|leaves|]))
    ensures RebuildConsistency(h, |leaves|, |leaves|, whole, seed, Subproof(h, |leaves|, leaves, whole))
         == Some((Root(h, leaves[..|leaves|]), Root(h, leaves)))
  {
    assert leaves[..|leaves|] == leaves;
  }

  lemma {:induction false} SubproofRebuilds(h: MerkleHasher, m: nat, leaves: seq<Digest>, whole: bool, seed: Digest)
    requires 0 < m <= |leaves|
    requires whole ==> seed == Root(h, leaves[..m])
    ensures RebuildConsistency(h, m, |leaves|, whole, seed, Subproof(h, m, leaves, whole))
         == Some((Root(h, leaves[..m]), Root(h, leaves)))
    decreases |leaves|, 1
  {
    if m == |leaves| {
      SubproofOfAll(h, leaves, whole, seed);
    } else if m <= SplitPoint(|leaves|) {
      SubproofRebuildsNew(h, m, leaves, whole, seed);
    } else {
      SubproofRebuildsShared(h, m, leaves, whole, seed);
    }
  }

  lemma {:induction false} SubproofRebuildsNew(h: MerkleHasher, m: nat, leaves: seq<Digest>, whole: bool, seed: Digest)
    requires |leaves| >= 2 && 0 < m <= SplitPoint(|leaves|)
    requires whole ==> seed == Root(h, leaves[..m])
    ensures RebuildConsistency(h, m, |leaves|, whole, seed, Subproof(h, m, leaves, whole))
         == Some((Root(h, leaves[..m]), Root(h, leaves)))
    decreases |leaves|, 0
  {
    var k := SplitPoint(|leaves|);
    assert leaves[..k][..m] == leaves[..m];
    SubproofRebuilds(h, m, leaves[..k], whole, seed);
    SubproofNewLevel(h, m, leaves, whole, seed, leaves[..k]);
  }

  lemma {:induction false} SubproofRebuildsShared(h: MerkleHasher, m: nat, leaves: seq<Digest>, whole: bool,
                                                  seed: Digest)
    requires |leaves| >= 2 && SplitPoint(|leaves|) < m < |leaves|
    ensures RebuildConsistency(h, m, |leaves|, whole, seed, Subproof(h, m, leaves, whole))
         == Some((Root(h, leaves[..m]), Root(h, leaves)))
    decreases |leaves|, 0
  {
    var k := SplitPoint(|leaves|);
    var right, j := leaves[k..], m - k;
    assert |right| == |leaves| - k;
    SubproofRebuilds(h, j, right, false, seed);
    SubproofSharedLevel(h, m, leaves, whole, seed, right);
  }

  lemma {:induction false} SubproofLength(h: MerkleHasher, m: nat, leaves: seq<Digest>, whole: bool)
    requires 0 < m <= |leaves|
    ensures |Subproof(h, m, leaves, whole)| <= CeilLog2(|leaves|) + 1
    decreases |leaves|
  {
    if m == |leaves| {
    } else {
      var k := SplitPoint(|leaves|);
      SplitPointLevels(|leaves|);
      if m <= k { SubproofLength(h, m, leaves[..k], whole); } else { SubproofLength(h, m - k, leaves[k..], false); }
    }
  }

  /** A proof exists for exactly 1 <= m <= n, verifies, and has at most ceil(log2 n) + 1 digests. */
  lemma ConsistencyComplete(h: MerkleHasher, leaves: seq<Digest>, m: nat)
    ensures Consistency(h, leaves, m).Some? <==> 1 <= m <= |leaves|
    ensures 1 <= m <= |leaves| ==>
              var proof := Consistency(h, leaves, m).value;
              && VerifyConsistency(h, proof, Root(h, leaves[..m]), Root(h, leaves))
              && |proof.path| <= CeilLog2(|leaves|) + 1
  {
    if 1 <= m <= |leaves| {
      SubproofRebuilds(h, m, leaves, true, Root(h, leaves[..m]));
      SubproofLength(h, m, leaves, true);
      if m == |leaves| { assert leaves[..m] == leaves; }
    }
  }

  lemma {:induction false} AuditPathHasWidth(h: MerkleHasher, m: nat, leaves: seq<Digest>)
    requires m < |leaves| && AllHaveWidth(h, leaves)
    ensures AllHaveWidth(h, AuditPath(h, m, leaves))
    decreases |leaves|
  {
    if |leaves| < 2 {
    } else {
      var k := SplitPoint(|leaves|);
      RootHasWidth(h, leaves[..k]);
      RootHasWidth(h, leaves[k..]);
      if m < k { AuditPathHasWidth(h, m, leaves[..k]); } else { AuditPathHasWidth(h, m - k, leaves[k..]); }
    }
  }
}
