/**
 Domain-separated hashing for the audit log: a leaf is the hash of 0x00 and the record, an
 inner node the hash of 0x01 and both children, the empty tree the hash of nothing.

 The hash itself is a parameter: any function from byte strings to byte strings of one fixed
 width. It is never assumed injective, so every "binding" result either concludes equality or
 exhibits two different inputs with the same hash.
 */
module MerkleHashing {
  import opened Prelude

  const LEAF_PREFIX: byte := 0x00
  const NODE_PREFIX: byte := 0x01

  /** A hash value and the code of the algorithm that produced it; the code is not itself hashed. */
  datatype Digest = Digest(algo: byte, bytes: Bytes)

  datatype HashFunction = HashFunction(algo: byte, width: nat, hash: Bytes -> Bytes)

  /** A hash function whose outputs all have the declared width. */
  type MerkleHasher = h: HashFunction | forall input :: |h.hash(input)| == h.width
    witness HashFunction(0, 0, (input: Bytes) => [])

  function EmptyRoot(h: MerkleHasher): Digest {
    Digest(h.algo, h.hash([]))
  }

  function LeafInput(record: Bytes): Bytes {
    [LEAF_PREFIX] + record
  }

  function Leaf(h: MerkleHasher, record: Bytes): Digest {
    Digest(h.algo, h.hash(LeafInput(record)))
  }

  function NodeInput(left: Digest, right: Digest): Bytes {
    [NODE_PREFIX] + left.bytes + right.bytes
  }

  function Node(h: MerkleHasher, left: Digest, right: Digest): Digest {
    Digest(h.algo, h.hash(NodeInput(left, right)))
  }

  /** Two hash inputs offered as evidence against the hash function. */
  datatype Collision = Collision(one: Bytes, other: Bytes)

  predicate Collides(h: MerkleHasher, c: Collision) {
    c.one != c.other && h.hash(c.one) == h.hash(c.other)
  }

  /** Digests a hasher could have produced, as far as their length tells. */
  predicate HasWidth(h: MerkleHasher, d: Digest) {
    |d.bytes| == h.width
  }

  predicate AllHaveWidth(h: MerkleHasher, ds: seq<Digest>) {
    forall i :: 0 <= i < |ds| ==> HasWidth(h, ds[i])
  }

  predicate SameBytes(xs: seq<Digest>, ys: seq<Digest>) {
    |xs| == |ys| && forall i :: 0 <= i < |xs| ==> xs[i].bytes == ys[i].bytes
  }

  function NodeCollision(l: Digest, r: Digest, l': Digest, r': Digest): Collision {
    Collision(NodeInput(l, r), NodeInput(l', r'))
  }

  /** Children are concatenated without lengths, so equal widths are what makes a node bind both. */
  lemma NodeBinds(h: MerkleHasher, l: Digest, r: Digest, l': Digest, r': Digest)
    requires |l.bytes| == |l'.bytes|
    requires Node(h, l, r).bytes == Node(h, l', r').bytes
    ensures (l.bytes == l'.bytes && r.bytes == r'.bytes) || Collides(h, NodeCollision(l, r, l', r'))
  {
    var x, y := NodeInput(l, r), NodeInput(l', r');
    if x == y {
      var n := 1 + |l.bytes|;
      assert l.bytes == x[1..n] && l'.bytes == y[1..n];
      assert r.bytes == x[n..] && r'.bytes == y[n..];
    }
  }
}
